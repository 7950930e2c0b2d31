# NovaCache: a verified model of its persistence, store, protocol and server core

NovaCache is a key-value server: it speaks RESP2, keeps its data in a sharded map with expiry, and makes
writes durable with a write-ahead log and snapshots. This project models the code where those promises
are made and proves them for every input, every interleaving and every crash point. Nothing was
executed: every statement below is a theorem about the model.

`dafny verify dfyconfig.toml` checks all modules.

## What is proved

**Durability.** `Durability` is a step machine over the bytes of the two files: append, sync, apply,
export, rename, truncate, rewrite header, background sync, the passing of time, removal of dead entries,
and a crash with a restart at any point. A crash may leave any cut of the log that keeps what was synced.
`CrashSafety` proves an invariant over all runs whose restarts resume at or above the snapshot, and from it:
with fsync=always, no acknowledged operation is ever lost, reordered or applied twice, at most the one in
progress is added, and the recovered store shows exactly the running store if and only if no deadline that
has passed was superseded by a later one. Runs begin in an empty directory or right after a snapshot.
`SyncedWrites` proves for every fsync mode that what was written before a completed sync or snapshot is never
lost. `ResumeOffset` treats restarts: for every image a crash may leave, the writes acknowledged after the restart
survive every later crash if and only if the log found on disk ends at or above the snapshot's offset. If it
ends at L below a snapshot at n, the next recovery skips exactly the first min(k, n - L) of k writes.
`CleanStop` shows that every clean stop after a write leaves L = 0, and that after any restart the next
snapshot ends the damage: the state after it is one in which runs begin.

**Formats.** `Wal`, `Snapshot`, `Binary` and `Crc32` work on bytes. The table-driven checksum equals
bit-by-bit division, which `CrcPolynomial` proves to be division by the IEEE 802.3 generator over two elements,
against a definition of quotient and remainder that mentions no register. Every burst of at most 32 damaged
bits changes it, so log recovery returns exactly the records before a damaged one. `Formats` says of every file
and record what is read from it: exactly the files that spell a snapshot, and exactly the records that spell
an operation. Recovery of a log is canonical exactly when no frame length wraps at 32 bits,
and idempotent exactly when no kept frame was cut; a torn tail is cut. All files of a size are recovered the
same way twice if and only if the size is at most 2^32 + 16 bytes; one byte more, and the second recovery of
the file of `WalLimits.SecondRecoveryLosesRecord` loses its record. A snapshot reads back as written exactly
when its lengths fit 32 bits and its expiries are whole milliseconds, whatever order a set is enumerated in.

**Store.** The class `Store.Store` refines a flat map with deadlines, operation by operation, with exact
memory accounting as part of its invariant, and every operation accounts for the keys it drops: entries
and expirations together are conserved, and active expiry removes exactly the dead keys it draws.
`LinearizableGet` and `TwoPhaseReads` prove that the two-phase GET and EXISTS answer what the flat map shows at
some instant of the call, whatever other threads do in between. TTL does so if and only if the clock does not
advance during the call.

**Protocol.** `RespTheorems` proves that the parser's verdicts are stable under more input, that it undoes
the encoder exactly on the values within the limits, and that strict prefixes are incomplete. `RespCanonical`
proves the other direction: the encoder gives back the bytes parsed if and only if every number in them is
plain. `RespVerdicts` proves that no input leaves the parser waiting for ever and that limits are the only reason
for a refusal by size or depth. `RespStream` proves that the way a stream is cut into feeds does not matter.

**Server.** `Strand` is a step machine of the I/O thread and the workers. `StrandSafety` and `StrandRuns`
prove over all runs: one outstanding command per connection, execution in request order, and the bytes of
a connection are its replies in order with at most one protocol-error text at a reply boundary.
`StrandProgress` proves that no strand stalls and that the server finishes what it has accepted. `Intake` runs
the parsers and the strands together and proves that a connection's commands are the first values of the
bytes received for it. `IntakeVerdicts` adds both directions of its verdict: commands sent are taken, all of them
and in order, and anything else is reported once and ends the reading. `ThreadPool` proves that accepted jobs
are started once, in order, and all of them have run when shutdown returns.
`LockOrder` proves the absence of deadlock for any number of threads and that all their work completes.

## How the model relates to the code

- Bytes are integers below 256; 16-, 32- and 64-bit casts and wrap-arounds are written out. CRC registers
  are sequences of 32 bits, least significant first.
- Wall-clock instants are integers in microseconds. One operation reads one instant; the monotonic and the
  wall clock differ by a constant (`skew`).
- The shard function is an arbitrary fixed function of the key; samples, thread schedules, socket events
  and the enumeration order of sets are arbitrary choices.
- Renaming a file is atomic and durable, fsync makes everything written durable, and a failed write ends
  the process. Until an fsync, a truncated file may come back from a crash as it was before.
- Each imperative file has an imperative counterpart: the classes `WalWriter.Writer`, `Store.Store`,
  `Engine.Engine`, `RespStream.Parser`, `ConnectionObject.Connection` and `ThreadPool.WorkerPool`, and loops
  in `Crc32`, `Binary`, `Snapshot`, `Resp` and `Mutation`. Their methods are proved against the functions
  that the theorems speak about. `Engine.Engine.Represents` ties the engine object to an idle state of the
  durability machine, and each call of the object takes it to the state after the machine's steps.
- In `Strand`, applying a completion, which in the code also tries to write to the socket before the strand
  continues, is followed by the socket steps; neither reads what the other changes except for the output.
- The histories in the machines (`log`, `since`, `hist`, `accepted`, and so on) exist for the statements only.

## Where the code and its documentation differ

- docs/PERSISTENCE.md line 96 says that numbering resumes at the larger of the snapshot's offset and the last
  log offset. The code resumes at the last log offset alone, which is zero for a log without records. The
  model follows the code; `ResumeOffset.WritesSurviveIff` and `ResumeOffset.ResumedWritesAreSkipped` state the
  consequence exactly, and `CleanStop.StopAndRestartLosesWrite` gives a run.
- docs/PERSISTENCE.md line 19 speaks of an older snapshot that replaces a corrupt one. The code keeps one
  snapshot file; a corrupt one counts as missing, and so it does in `Recovery.Load`. What that costs is stated
  by `Snapshot.DamagedIsRefused` and `CrashSafety.LostSnapshotNeverInvents`: keys are lost, none is invented.
- The scan of the log adds frame lengths in 32 bits both when it compares them with the remaining bytes and
  when it advances, so a record survives exactly when its whole frame is shorter than 2^32 bytes
  (`Wal.RecordRecoversIffSmall`). After a longer one the next start can read past the end of the file
  (`WalLimits.SecondRecoveryOverruns`).
- The parser accepts integers such as `007` and `-0`, so encoding a parsed value need not give the bytes back.
  `RespCanonical.ReencodesIffPlain` says exactly when it does.
- The protocol-error text is appended at once, on bad input and on the end of input inside a frame. It overtakes
  the replies to commands in flight, and `StrandRuns.ErrorInTurnIff` says exactly when it does.
- A second call of the pool's shutdown returns at once. `ThreadPool.SecondShutdownFindsAllDoneIff` says exactly
  when everything has run by then.
- TTL counts seconds from the clock it read at the call, so beside an EXPIRE it can answer more than the map
  ever shows (`TwoPhaseReads.TtlOverstates`).

## Model

| member | source | states |
|---|---|---|
| Crc32.ShiftBits | src/persistence/crc32.cpp:8-25 | the inner loop of the table is the given number of reflected division steps |
| Crc32.BuildTable | src/persistence/crc32.cpp:8-25 | every one of the 256 entries is the remainder of its index, shifted eight bits |
| Crc32.TableStep | src/persistence/crc32.cpp:29-37 | one lookup and shift equals eight steps of bit-by-bit division, for every register and octet |
| Crc32.TableUpdate | src/persistence/crc32.cpp:29-37 | the loop over octets computes the bit-by-bit remainder of the whole input |
| Crc32.UpdateChains | src/persistence/crc32.cpp:29-37 | checksumming two pieces in turn equals checksumming their concatenation |
| Crc32.BurstDetected | src/persistence/crc32.cpp:29-46 | two different inputs that differ within 32 consecutive bits have different checksums |
| CrcPolynomial.PolyIsGenerator | src/persistence/crc32.cpp:8-25 | the constant of the table holds the coefficients of the IEEE 802.3 generator, x^32 + x^26 + x^23 + ... + x + 1, written reflected |
| CrcPolynomial.LongDivision | src/persistence/crc32.cpp:29-37 | quotient and remainder over two elements exist for every polynomial of 32 terms or more |
| CrcPolynomial.DivisionUnique | src/persistence/crc32.cpp:29-37 | there is only one such quotient and remainder |
| CrcPolynomial.DivideIsRemainder | src/persistence/crc32.cpp:29-37 | the register after shifting any bits through it is the remainder of register and bits by the generator |
| CrcPolynomial.ChecksumIsRemainder | src/persistence/crc32.cpp:29-46 | the checksum is the complement of the remainder that the data, followed by 32 zeros and with its first 32 bits inverted, leaves by the generator |
| CrcPolynomial.BitsAre | src/persistence/crc32.cpp:29-37 | the bits divided are those of the octets in order, the lowest of each first |
| CrcPolynomial.ValueBits | src/persistence/crc32.cpp:29-46 | bit j of the number returned is bit j of the register |
| Binary.ReadBackU8 | include/novacache/persistence/binary.hpp:13-63 | a written octet is read back and leaves the rest of the input |
| Binary.ReadBackU16 | include/novacache/persistence/binary.hpp:17-74 | a written 16-bit integer is read back and leaves the rest of the input |
| Binary.ReadBackU32 | include/novacache/persistence/binary.hpp:23-86 | a written 32-bit integer is read back and leaves the rest of the input |
| Binary.ReadBackU64 | include/novacache/persistence/binary.hpp:33-100 | a written 64-bit integer is read back and leaves the rest of the input |
| Binary.ReadBackI64 | include/novacache/persistence/binary.hpp:47-104 | a written signed integer is read back, negative ones included |
| Binary.ReadBackBlob | include/novacache/persistence/binary.hpp:51-114 | a byte string is read back if and only if its length fits 32 bits |
| Binary.ReadBlobFits | include/novacache/persistence/binary.hpp:106-114 | whatever is read as a byte string is what writing it would have produced |
| Binary.WriteBackU16 | include/novacache/persistence/binary.hpp:65-74 | writing the 16-bit value read gives the bytes that were read |
| Binary.WriteBackU32 | include/novacache/persistence/binary.hpp:76-86 | writing the 32-bit value read gives the bytes that were read |
| Binary.WriteBackU64 | include/novacache/persistence/binary.hpp:88-100 | writing the 64-bit value read gives the bytes that were read |
| Binary.ReadU64 | include/novacache/persistence/binary.hpp:88-100 | the loop assembles the little-endian value of eight octets, or reports a short input |
| Formats.ValueIff | include/novacache/persistence/binary.hpp:65-104 | the value read from octets is the number whose digits to base 256 they are, lowest first |
| Formats.WritersAreLittleEndian | include/novacache/persistence/binary.hpp:13-63 | every writer writes these digits, of a negative number those of its two's complement |
| Wal.ParseBodyInverse | src/persistence/wal.cpp:40-47 | a record body is the encoding of what is parsed from it |
| Wal.BodyInjective | src/persistence/wal.cpp:40-47 | two records with the same body are the same record |
| Formats.RecordLayout | src/persistence/wal.cpp:178-190 | a frame is the length of the body, offset, opcode, payload and the checksum of the body, in these widths and this order |
| Formats.OpenVerdict | src/persistence/wal.cpp:58-125 | a short or foreign file is started anew with the bare header, and one with the magic is refused if and only if its version is not 1 |
| Wal.ScanEncoded | src/persistence/wal.cpp:126-175 | scanning encoded records with increasing offsets returns them all and goes on with what follows |
| Wal.LogRecovers | src/persistence/wal.cpp:58-176 | a log of whole records is recovered up to the first bytes that no record starts, and the file is cut there |
| Wal.TornTailRecovers | src/persistence/wal.cpp:126-175 | records followed by any strict prefix of another recover to exactly those records |
| Wal.CleanLogRecovers | src/persistence/wal.cpp:58-176 | a clean log recovers completely, with its bytes unchanged and its last offset |
| Wal.DamagedRecordStops | src/persistence/wal.cpp:126-175 | damage of at most 32 consecutive bits in a body ends recovery exactly before that record, whatever follows |
| Wal.ScanCanonical | src/persistence/wal.cpp:126-175 | on arbitrary bytes, the kept bytes are the re-encoded records exactly when no frame length wraps |
| Wal.RecoveryIsCanonical | src/persistence/wal.cpp:126-175 | for every file with a good header, recovery keeps exactly header and re-encoded records if and only if no frame wraps |
| Wal.RecoveryIsIdempotent | src/persistence/wal.cpp:126-175 | without wrapped lengths, recovering the kept bytes again changes nothing |
| Wal.ScanOfKept | src/persistence/wal.cpp:126-175 | on arbitrary bytes, scanning the kept bytes again gives the same result if and only if they hold every accepted frame whole |
| Wal.RecoveryIsIdempotentIff | src/persistence/wal.cpp:126-175 | for every file with a good header, wrapped lengths included, a second recovery changes nothing if and only if no kept frame was cut |
| WalLimits.ShortFileIsIdempotent | src/persistence/wal.cpp:126-175 | every file of at most 2^32 + 16 bytes that is recovered is recovered the same way again |
| WalLimits.SecondRecoveryOverruns | src/persistence/wal.cpp:137-159 | a log whose record is numbered 1 and has a body of 2^32 - 4 bytes, whatever its payload and whatever follows: the first recovery returns it and cuts the file to 20 bytes, the second removes more bytes than there are, which is undefined |
| WalLimits.SecondRecoveryLosesRecord | src/persistence/wal.cpp:137-159 | a record of offset 256 with a body of 2^32 - 7 bytes that does not look like another record from its second octet on: the first recovery returns it and keeps one octet, the second returns nothing |
| WalLimits.SomethingTrips | src/persistence/wal.cpp:137-159 | such a record exists |
| WalLimits.IdempotentUpToSize | src/persistence/wal.cpp:126-175 | recovery is idempotent on all files of a size if and only if the size is at most 2^32 + 16 |
| Wal.RecordRecoversIffSmall | src/persistence/wal.cpp:126-175 | an appended record survives recovery if and only if its frame is shorter than 2^32 bytes |
| WalWriter.Writer.constructor | src/persistence/wal.cpp:51 | a writer starts closed, at offset zero |
| WalWriter.Writer.OpenAndRecover | src/persistence/wal.cpp:58-176 | the in-place scan returns the records of the specification, truncates the file to them and sets the offset; a refusal leaves the file |
| WalWriter.Writer.Append | src/persistence/wal.cpp:178-190 | one frame with the next 64-bit offset is added; a closed log is left alone |
| WalWriter.Writer.Sync | src/persistence/wal.cpp:192-198 | everything written becomes durable |
| WalWriter.Writer.TruncateAfter | src/persistence/wal.cpp:200-211 | the log is a durable bare header and numbering goes on from the given offset |
| Values.MillisecondsExact | src/persistence/snapshot.cpp:110-116 | an instant survives the conversion to milliseconds if and only if it is a whole millisecond |
| Values.TruncatesTowardZero | src/persistence/snapshot.cpp:110-116 | the conversion drops less than a millisecond, toward zero on both sides of 1970 |
| FlatMap.LiveUntilDeadline | src/store/store.cpp:64-66 | a key is shown, with its value, strictly before its deadline and not from then on |
| FlatMap.DeadlineTakesEffect | src/store/store.cpp:84-119 | a deadline reached when it is set removes the key, and one that lies ahead is kept |
| FlatMap.ExistsCountIs | src/store/store.cpp:210-234 | EXISTS counts the positions that name a live key |
| Snapshot.SnapshotReadsBack | src/persistence/snapshot.cpp:118-243 | a written snapshot reads back with its offset and entries, expiries cut to milliseconds |
| Snapshot.DamagedIsRefused | src/persistence/snapshot.cpp:165-243 | a snapshot whose content is damaged within 32 consecutive bits is refused |
| Snapshot.RoundTripIffFits | src/persistence/snapshot.cpp:53-243 | the entries come back exactly if and only if lengths fit 32 bits and expiries are whole milliseconds, for every enumeration order of sets |
| Snapshot.LoadedEntriesFit | src/persistence/snapshot.cpp:165-243 | no file whatsoever yields an entry that the format cannot hold |
| Formats.ReadsIff | src/persistence/snapshot.cpp:165-243 | for every file, offset and entries: the reader returns them if and only if the file is magic, version, offset, count, the entries in their format and the checksum |
| Snapshot.AppendBlobs | src/persistence/snapshot.cpp:53-78 | the element loop writes the elements in order |
| Snapshot.AppendMembers | src/persistence/snapshot.cpp:53-78 | the member loop writes every member of a set once, in some order |
| Snapshot.AppendValue | src/persistence/snapshot.cpp:53-78 | every kind of value is written in its format |
| Snapshot.AppendEntry | src/persistence/snapshot.cpp:118-163 | key, value and expiry are written in the entry format |
| Snapshot.WriteFile | src/persistence/snapshot.cpp:118-163 | the file written is a snapshot of exactly the given entries at the given offset |
| Snapshot.ParseCountedBlobs | src/persistence/snapshot.cpp:80-106 | the element loop of the reader returns what the specification reads, or fails with it |
| Snapshot.ParseValue | src/persistence/snapshot.cpp:80-106 | the value reader returns what the specification reads, or fails with it |
| Snapshot.ParseEntry | src/persistence/snapshot.cpp:165-243 | the entry reader returns what the specification reads, or fails with it |
| Snapshot.ReadBack | src/persistence/snapshot.cpp:165-243 | the reader accepts and returns exactly what the specification does, checksum and header tests included |
| Mutation.DecodeEncoded | src/persistence/wal.cpp:247-273 | a logged SET, DEL or EXPIRE decodes to the same operation |
| Mutation.DecodedIsWritable | src/persistence/engine.cpp:190-225 | whatever replay decodes is an operation that can be logged |
| Mutation.ReplayedIffWritable | src/persistence/engine.cpp:190-225 | replay sees the operation that was logged if and only if its lengths fit and its deadline is a whole millisecond |
| Formats.DecodesIff | src/persistence/engine.cpp:190-225 | for every record and operation: replay reads the operation if and only if the record has its opcode and its payload begins with the operation written out |
| Mutation.ApplyLive | src/persistence/engine.cpp:190-225 | dead entries left in the store make no difference to what an operation shows |
| Mutation.EncodeDelPayload | src/persistence/wal.cpp:259-266 | the key loop of DEL writes the payload that replay reads |
| Replay.NeverInvents | src/persistence/engine.cpp:190-225 | for every log and restart time, each key shown after replay is shown by the uncrashed store with the same value and deadline |
| Replay.LessNeverInvents | src/persistence/engine.cpp:41-65 | replaying onto any part of what was there, onto nothing in particular, shows only what the uncrashed store shows |
| Replay.ReplayExactIff | src/persistence/engine.cpp:190-225 | replay shows exactly the uncrashed store if and only if no passed deadline was superseded |
| Replay.ReplayExactWhenShrinking | src/persistence/engine.cpp:111-124 | if deadlines only shrink between SETs, replay is exact at every restart time |
| Replay.SupersededDeadlineLosesKey | src/persistence/engine.cpp:111-124 | SET, EXPIRE, longer EXPIRE: between the two deadlines the running store shows the key and a replayed one does not |
| LogImage.AppendedBytes | src/persistence/wal.cpp:178-190 | one more operation in the history is one more frame in the file |
| LogImage.CutLog | src/persistence/wal.cpp:126-175 | any cut of a log is whole frames and a strict prefix of the next, and every frame before the cut is whole |
| LogImage.CutLogRecovers | src/persistence/wal.cpp:58-176 | recovery of a cut log returns exactly its whole frames |
| Recovery.ImportIsLive | src/persistence/engine.cpp:45-53 | installing snapshot entries keeps exactly those not yet due at the restart |
| Recovery.SelectedStretch | src/persistence/engine.cpp:54-60 | of a stretch of the history, replay applies exactly the operations above the snapshot's offset |
| Recovery.RecoversIff | src/persistence/engine.cpp:41-65 | for every log and snapshot file: recovery succeeds if and only if the log opens and every record above the snapshot's offset decodes |
| Recovery.ReplayIsRun | src/persistence/engine.cpp:54-60 | a recovered store is one that ran every replayed operation at the restart time |
| Durability.CrashLeaves | src/persistence/wal.cpp:178-211 | whatever a crash leaves of the log, at any step of a write or rotation, is a bare header or a stretch of the history that misses nothing durable |
| CrashSafety.FreshInv | src/persistence/engine.cpp:22-37 | a first start in an empty directory satisfies the durability invariant |
| CrashSafety.BeginsInv | src/persistence/engine.cpp:137-150 | so does a state in which a snapshot has just been completed |
| CrashSafety.PurgeKeeps | src/store/store.cpp:355-380 | removing dead entries at any moment keeps the durability invariant |
| CrashSafety.AppendKeeps | src/persistence/wal.cpp:178-190 | appending a record keeps the invariant |
| CrashSafety.SettleKeeps | src/persistence/engine.cpp:227-231 | the durability action of the fsync mode keeps the invariant |
| CrashSafety.CommitKeeps | src/persistence/engine.cpp:94-124 | applying the logged operation to the store keeps the invariant |
| CrashSafety.EntriesFit | src/persistence/engine.cpp:137-150 | whatever a store in order can hold, the snapshot format can hold |
| CrashSafety.ExportKeeps | src/persistence/engine.cpp:137-150 | listing the live entries and writing the temporary file keeps the invariant |
| CrashSafety.RenameKeeps | src/persistence/snapshot.cpp:140-162 | replacing the snapshot in one step keeps the invariant |
| CrashSafety.RotateKeeps | src/persistence/wal.cpp:200-211 | each of truncating, rewriting the header and syncing keeps the invariant |
| CrashSafety.CrashRecovers | src/persistence/engine.cpp:41-65 | from every state and remnant, recovery succeeds with a prefix of the operations in lock order, each once, missing nothing durable; with fsync=always nothing acknowledged is missing and at most one operation is added |
| CrashSafety.CrashNeverInvents | src/persistence/engine.cpp:41-65 | the recovered store shows nothing the uncrashed one does not, and all of it if and only if no passed deadline was superseded |
| CrashSafety.LostSnapshotNeverInvents | src/persistence/engine.cpp:45-60 | with the snapshot missing or corrupt and only later records in the log, recovery replays them all and shows only what the uncrashed store shows |
| CrashSafety.UncrashedIsRunning | src/persistence/engine.cpp:94-124 | the reference for that comparison is the running store, with the operation in progress if it survived |
| CrashSafety.RestartKeepsIff | src/persistence/engine.cpp:41-65 | a restart keeps the durability invariant if and only if the recovered log ends at or above the snapshot's offset |
| CrashSafety.ResumesAfterWrite | src/persistence/engine.cpp:94-124 | with fsync=always, one acknowledged write after a snapshot is enough for every crash to leave a log that resumes above it |
| CrashSafety.StepKeeps | src/persistence/engine.cpp:41-150 | every step of the machine keeps the invariant, restarts under that condition |
| CrashSafety.WriteIsRun | src/persistence/engine.cpp:94-100 | a first start and one durable write are such a run, in every fsync mode |
| CrashSafety.RunKeeps | src/persistence/engine.cpp:41-150 | every state of every run satisfies the invariant, through any number of such restarts |
| CrashSafety.AckedNeverLost | src/persistence/engine.cpp:94-150 | with fsync=always, what is acknowledged at one point of a run is a prefix of what is acknowledged at any later point |
| CrashSafety.RunSurvivesCrash | src/persistence/engine.cpp:41-150 | for every run, every crash point and every remnant, the recovered store shows the running store with or without the operation in progress, exactly if and only if no passed deadline was superseded |
| SyncedWrites.KeptNeverLost | src/persistence/engine.cpp:159-180 | in every fsync mode, the operations durable at one point of a run are a prefix of those durable at any later point |
| SyncedWrites.SyncedSurvives | src/persistence/engine.cpp:159-180 | in every fsync mode, for every run and crash point: whatever was written when a sync of the log or the replacement of the snapshot took place is recovered, through any number of restarts |
| ResumeOffset.RestartShape | src/persistence/engine.cpp:41-65 | from every image a crash may leave, a restart keeps the whole frames, replays those above the snapshot and resumes at the last of them |
| ResumeOffset.WritesExtend | src/persistence/wal.cpp:178-190 | acknowledged writes add frames that continue the numbering the file ends with |
| ResumeOffset.ResumedWritesAreSkipped | src/persistence/engine.cpp:45-60 | for every state in order, every image, every sequence of acknowledged writes and every later crash: the next recovery replays what the first one did and all the writes but the first n - L |
| ResumeOffset.WritesSurviveIff | src/persistence/engine.cpp:45-60 | all writes acknowledged after a restart survive every crash if and only if the log found on disk ends at or above the snapshot's offset |
| ResumeOffset.OneWriteLost | src/persistence/wal.cpp:126-128 | otherwise the very first acknowledged write, whatever it is, is lost in every crash |
| ResumeOffset.CrashInsideRecovery | src/persistence/wal.cpp:164-175 | a crash inside recovery, before the cut or the new header is synced, leads to the same replay and the same offset |
| ResumeOffset.SnapshotLeavesBareLog | src/persistence/wal.cpp:200-211 | a completed snapshot stands at the whole history and leaves a log without records, which resumes only if the history is empty |
| CleanStop.MapIsListable | src/store/store.cpp:382-401 | every map has a listing that a snapshot can be written from |
| CleanStop.StopLeavesBareLog | src/persistence/engine.cpp:67-80 | every run that stands idle goes on by a clean stop, with its sync unless the mode is never to sync, to a bare log below its snapshot |
| CleanStop.StopAndRestartLosesWrite | src/persistence/engine.cpp:67-80 | first start, one write, clean stop, restart: the next acknowledged write is lost in every crash |
| SnapshotSteps.SnapshotIsSteps | src/persistence/engine.cpp:137-150 | the steps of a snapshot are possible and lead to the live store, the new file and a durable bare log |
| SnapshotSteps.SnapshottedKeeps | src/persistence/engine.cpp:137-150 | they keep the durability invariant |
| SnapshotSteps.SnapshotRepairs | src/persistence/engine.cpp:137-150 | from every idle state with storable contents, however its numbering came about, they lead to a state in which runs begin once the past operations are counted by the offset |
| CleanStop.SnapshotEndsDamage | src/persistence/engine.cpp:137-150 | after every restart, below the snapshot or not, and every sequence of writes, a snapshot is possible, shows the running store and leads to such a state |
| SortedKeys.SortSorted | src/store/store.cpp:327 | the listing of KEYS is in ascending byte order |
| SortedKeys.LeqMeans | src/store/store.cpp:327 | that order is decided by the first octet in which two keys differ, and a prefix comes first |
| SortedKeys.SortLists | src/store/store.cpp:327 | sorting keeps a listing of a set without repetition one |
| SortedKeys.SortedListingUnique | src/store/store.cpp:327 | a set has one sorted listing, so KEYS has one possible answer |
| Shards.KeptView | src/store/store.cpp:382-401 | dropping expired entries shard by shard is taking the live part of the flat map |
| Shards.EstimateLaws | src/store/store.cpp:41-62 | what an entry counts for: its fixed size, its key, eight for a number, and the length of each text once |
| Store.MakeStore | src/store/store.cpp:31-39 | an empty store in order, or the exception exactly for zero shards |
| Store.Store.EstimateBytes | src/store/store.cpp:41-62 | the loops add up the size of the entry, key and value |
| Store.Store.Erase | src/store/store.cpp:182-183 | one key leaves the map and its exact size leaves the memory counter, which cannot underflow |
| Store.Store.EraseExpired | src/store/store.cpp:68-78 | a key is removed if and only if it is dead at the given time, and counted as expired if and only if removed |
| Store.Store.Set | src/store/store.cpp:84-119 | SET of the flat map; a deadline already due deletes; memory stays the exact sum |
| Store.Store.Place | src/store/store.cpp:107-118 | the entry takes its key's place and the memory counter stays the exact sum |
| Store.Store.Get | src/store/store.cpp:121-144 | the flat map's answer; the visible map does not change; what is removed is dead and counted |
| Store.Store.Del | src/store/store.cpp:146-159 | the key is gone, and the answer is true exactly if it was live |
| Store.Store.Exists | src/store/store.cpp:189-208 | true exactly for a live key; the visible map does not change |
| Store.Store.DelMany | src/store/store.cpp:161-187 | all named keys are gone and each distinct live one was counted once |
| Store.Store.ExistsMany | src/store/store.cpp:210-234 | live keys are counted with repetition; the visible map does not change |
| Store.Store.ExpireAt | src/store/store.cpp:243-264 | the flat map's deadline change; a past or missing time deletes; true exactly for live keys |
| Store.Store.Redate | src/store/store.cpp:261-263 | only the deadline of the entry changes |
| Store.Store.Ttl | src/store/store.cpp:266-299 | whole seconds left, -1 without deadline, -2 for an absent or dead key; the visible map does not change |
| Store.TimeToLiveMeans | src/store/store.cpp:266-299 | a key nobody touches lives at least the seconds TTL answers and less than one more; -1 is for ever and -2 is not there |
| Store.Store.SweepShard | src/store/store.cpp:382-401 | one shard loses its dead entries and the others are listed once each |
| Store.Store.Keys | src/store/store.cpp:301-329 | only the pattern of one asterisk is served; the answer is sorted and lists every live key once |
| Store.Store.ActiveExpireCycle | src/store/store.cpp:355-380 | whatever is drawn, as many keys as allowed are drawn from each shard, exactly the dead ones among them are removed and counted, and nothing else changes; a store of dead entries with samples enough for its shards ends up empty |
| Store.Store.SampleShard | src/store/store.cpp:364-378 | the sampling loop makes as many draws as the samples and the size of the shard allow, each from what is left, and removes exactly the dead keys drawn |
| Store.Store.DrawOne | src/store/store.cpp:371-377 | the key drawn leaves the shard, and is counted, if and only if it is dead |
| Store.EnoughDrawsEmptyShard | src/store/store.cpp:369-377 | draws as many as a shard of dead entries holds empty it, whatever is drawn |
| Store.Store.ExportSnapshotEntries | src/store/store.cpp:382-401 | the entries are exactly the live ones, each once, and dead ones are gone |
| Store.Store.Clear | src/store/store.cpp:403-409 | the store is empty and its memory counter zero |
| LinearizableGet.MutationsAreChanges | src/store/store.cpp:84-264 | every mutation of the store is a change that the interleaving model allows |
| LinearizableGet.LiveSinceWritten | src/store/store.cpp:121-144 | an entry live by the clock read at the call was visible at the call or when it was written |
| LinearizableGet.GetIsLinearizable | src/store/store.cpp:121-144 | with any changes between call, shared look and exclusive look, the answer is what is visible at some moment of the call |
| LinearizableGet.GetAnswersFlatMap | src/store/store.cpp:121-144 | the same against whole stores: the flat map's GET at some instant between call and return |
| LinearizableGet.AnswerMayBePast | src/store/store.cpp:121-144 | the instant may have to lie before the look: a key can be answered that is dead when it is looked at |
| TwoPhaseReads.ExistsAnswersFlatMap | src/store/store.cpp:189-208 | EXISTS answers what the flat map answers at some instant between its call and its return |
| TwoPhaseReads.ShownIsTimeToLive | src/store/store.cpp:266-299 | what a moment shows is the flat map's TTL |
| TwoPhaseReads.TtlCountsFromCall | src/store/store.cpp:266-299 | TTL answers for an entry visible during the call, counted from the clock of the call: never below what was shown, above it by at most the time since the call rounded up |
| TwoPhaseReads.TtlLinearizableIff | src/store/store.cpp:266-299 | TTL is linearizable in every history of a clock if and only if that clock stands still during the call |
| TwoPhaseReads.TtlAnswersFlatMapIff | src/store/store.cpp:266-299 | the same over all histories of the store, the failing one made by a SET with a deadline |
| TwoPhaseReads.TtlOverstates | src/store/store.cpp:266-299 | a history of the store in which TTL answers 11 and the map never shows more than 10 |
| Engine.Engine.constructor | src/persistence/engine.cpp:22-37 | an engine on a log and a snapshot file, its first timed snapshot due after one period |
| Engine.Engine.ApplyRecord | src/persistence/engine.cpp:190-225 | replaying a record is the operation on the flat map |
| Engine.Engine.ImportEntries | src/persistence/engine.cpp:47-53 | installing the entries gives the specified import |
| Engine.Engine.ReplayRecords | src/persistence/engine.cpp:54-60 | the loop replays exactly the selected records in order, and fails exactly on an undecodable one |
| Engine.Engine.LoadSnapshot | src/persistence/engine.cpp:45-53 | a missing or corrupt snapshot counts as empty at offset zero |
| Engine.Engine.TimePasses | src/persistence/engine.cpp:94-150 | between two calls the passing of time is a step of the machine |
| Engine.Engine.RecoverInto | src/persistence/engine.cpp:41-65 | store, log file and offset after recovery are those of the recovery specification; on what a crash left of a machine state, it is the machine's restart step, and in an empty directory it gives the state in which runs begin |
| Engine.Engine.Log | src/persistence/engine.cpp:227-231 | the record is in the file, and durable with fsync=always, before the store changes |
| Engine.Engine.DurableSet | src/persistence/engine.cpp:94-100 | one frame and one SET, or nothing on a closed log; a represented state goes to the one after append, settle and commit |
| Engine.Engine.DurableDel | src/persistence/engine.cpp:102-109 | one frame and one DEL with the count of distinct live keys, or nothing on a closed log; a represented state goes to the one after append, settle and commit |
| Engine.Engine.DurableExpire | src/persistence/engine.cpp:111-124 | log and store get the same whole-millisecond deadline; a live key then has the given seconds to live by TTL, to within one, and no time left removes it; a represented state goes to the one after append, settle and commit |
| Engine.ExpireLasts | src/persistence/engine.cpp:111-124 | EXPIRE with a positive time keeps a live key and puts its deadline that many seconds ahead, to within a millisecond |
| Engine.ExpireNow | src/persistence/engine.cpp:111-124 | EXPIRE with no time left removes a live key if and only if the clock reads a whole millisecond or an instant not before 1970 |
| Engine.Engine.SnapshotNow | src/persistence/engine.cpp:137-150 | the file is a snapshot of exactly the live entries, each once, at the last offset, and the log restarts bare with its numbering; the timer is set one period ahead; a represented state goes to the one after sync, export, rename and rotation |
| Engine.Engine.MaybeSnapshot | src/persistence/engine.cpp:126-135 | a snapshot is taken exactly when the timer is on and due, and the next is due a period later |
| Engine.PeriodIs | src/persistence/engine.cpp:126-150 | the timer counts seconds, and is off for none |
| Engine.WrittenKeeps | src/persistence/engine.cpp:94-124 | the steps of a durable write keep the durability invariant of the represented state |
| Resp.AppendEncoded | src/protocol/encoder.cpp:48-83 | the encoder appends the RESP form of the value, or throws exactly for line text with CR or LF |
| Resp.AppendItems | src/protocol/encoder.cpp:48-83 | the element loop appends all elements in order, or throws with the first that does |
| RespVerdicts.LinesOnTheWire | src/protocol/encoder.cpp:48-83 | the octets of a simple string, an error, a negative number and both absent values |
| RespVerdicts.BlocksOnTheWire | src/protocol/encoder.cpp:48-83 | the octets of a bulk string and of an array |
| RespVerdicts.EncodableIffReadable | src/protocol/encoder.cpp:37-83 | a value is encoded, rather than refused, if and only if the parser with some limits would give it back |
| RespParser.ParseValue | src/protocol/parser.cpp:179-199 | a complete answer consumes at least one byte and at most the input; the recursion ends |
| RespTheorems.VerdictStable | src/protocol/parser.cpp:28-199 | every answer but incomplete is the same on every extension of the input, value, count and error text |
| RespTheorems.EncodedParses | src/protocol/parser.cpp:47-199 | parsing an encoded value followed by any bytes gives the value and consumes exactly its encoding |
| RespTheorems.ParsedFits | src/protocol/parser.cpp:61-199 | whatever is parsed lies within the limits |
| RespTheorems.RoundTripIffFits | src/protocol/parser.cpp:47-199 | the round trip holds if and only if the value lies within the limits, null arrays counting toward depth |
| RespTheorems.PrefixIncomplete | src/protocol/parser.cpp:28-199 | every strict prefix of an encoding is incomplete |
| RespVerdicts.NeverStuck | src/protocol/parser.cpp:28-199 | for every input, depth and limits there are further bytes after which the parser has an answer |
| RespVerdicts.OnlyLimitsChange | src/protocol/parser.cpp:87-177 | wider limits change no answer but "oversized" and "too deep" |
| RespVerdicts.RefusedForItsLimit | src/protocol/parser.cpp:87-177 | nothing is oversized where sizes are not limited, and nothing is too deep that is shorter than the depth left |
| RespCanonical.NumberAcceptedIff | src/protocol/parser.cpp:47-56 | a text is accepted as a 64-bit number if and only if it is that number in decimal after an optional minus and any zeros |
| RespCanonical.DigitsPlainIff | src/protocol/parser.cpp:47-56 | a string of digits is the decimal form of its value if and only if it has no leading zero |
| RespCanonical.NumberPlainIff | src/protocol/parser.cpp:47-56 | an accepted number is written back as it was if and only if it has no leading zero and is no negative zero |
| RespCanonical.ReencodesIffPlain | src/protocol/parser.cpp:47-199 | the bytes consumed by any parse are the encoding of the value if and only if every integer and length line in them is plain |
| RespCanonical.LeadingZerosAreLost | src/protocol/parser.cpp:74-85 | `:007` is read as seven and written as `:7` |
| RespCanonical.PaddedNullIsLost | src/protocol/parser.cpp:87-132 | `$-01` is read as the absent bulk string and written as `$-1` |
| RespStream.ScanForLine | src/protocol/parser.cpp:28-45 | the loop finds the first line end, or reports a lone CR or LF, as specified |
| RespStream.ParseBulkString | src/protocol/parser.cpp:87-132 | the bulk branch as written, limits and line end included, computes the specified result |
| RespStream.ParseOne | src/protocol/parser.cpp:58-199 | the parser as written, with its loops and error texts, computes the specified result |
| RespStream.ParseWholeArray | src/protocol/parser.cpp:134-177 | the element loop over one cursor computes the specified result, first failure included |
| RespStream.Parser.constructor | src/protocol/parser.cpp:203 | an empty parser with the given limits |
| RespStream.Parser.Feed | src/protocol/parser.cpp:205-216 | bytes are appended unless they overflow the limit, which is remembered |
| RespStream.Parser.Next | src/protocol/parser.cpp:218-229 | the next value is answered and taken off, or the verdict is repeated |
| RespStream.Parser.Reset | src/protocol/parser.cpp:231-234 | the parser is as new |
| RespStream.StreamAccounted | src/protocol/parser.cpp:205-229 | after every sequence of feeds and nexts, values taken and bytes kept account for the stream |
| RespStream.YieldIsPrefix | src/protocol/parser.cpp:205-229 | the values taken so far are the first values of the stream |
| RespStream.ExhaustedRun | src/protocol/parser.cpp:205-229 | an exhausted run has yielded exactly the values of its stream and stands at its verdict |
| RespStream.BufferWithinStream | src/protocol/parser.cpp:205-216 | a stream within the limit is never refused, however it is cut |
| RespStream.CutsDoNotMatter | src/protocol/parser.cpp:205-229 | two ways of cutting the same stream, of any length, give the same values and the same final verdict unless one overflowed the buffer |
| RespStream.ShortStreamCutsDoNotMatter | src/protocol/parser.cpp:205-229 | a stream within the buffer limit overflows in no way of cutting it |
| RespStream.RefusalIsFinal | src/protocol/parser.cpp:205-229 | after a refused feed every later answer is the refusal |
| RespStream.RefusedIffOverflowing | src/protocol/parser.cpp:205-216 | the buffer never holds more than its limit, and a feed is refused if and only if it would |
| StrandSafety.EnqueueOk | src/server/server.cpp:282-289 | a new command takes the next number and the end of the queue, and the connection stays in order |
| StrandSafety.LaunchPooled | src/server/server.cpp:291-328 | the launched job is the oldest unexecuted command of its connection |
| StrandSafety.DeliverOk | src/server/server.cpp:346-403 | noting and flushing a completion appends exactly the next reply, or drops it on overflow and closes |
| StrandSafety.AcceptKeeps | src/server/server.cpp:153-185 | a new connection gets an identity no job or completion refers to |
| StrandSafety.CommandKeeps | src/server/server.cpp:261-328 | queueing a command, with the launch into the pool or in place, keeps the server invariant |
| StrandSafety.ExecuteKeeps | src/server/server.cpp:291-328 | a worker running any job of the pool keeps the invariant, also if the connection is gone |
| StrandSafety.DeliverKeeps | src/server/server.cpp:346-403 | applying a completion and relaunching the strand keeps the invariant, also if the connection is gone |
| StrandSafety.FailingKeeps | src/server/server.cpp:247-249 | appending the error text on bad input keeps the invariant |
| StrandSafety.EndOfInputKeeps | src/server/server.cpp:231-241 | end of input, with or without a partial frame, keeps the invariant |
| StrandSafety.SendKeeps | src/server/server.cpp:405-420 | a partial write moves bytes from the output to the client and keeps the invariant |
| StrandSafety.CloseKeeps | src/server/server.cpp:455-467 | removing a connection with work outstanding keeps the invariant |
| StrandSafety.StepKeeps | src/server/server.cpp:153-499 | every step of the I/O thread, the workers and the sockets keeps the invariant |
| StrandRuns.RunInv | src/server/server.cpp:153-499 | every state of every interleaving satisfies the invariant |
| StrandRuns.OneOutstandingCommand | src/server/server.cpp:282-328 | no two jobs or completions in the system belong to one connection |
| StrandRuns.ExecutedInOrder | src/server/server.cpp:282-328 | the executed commands of a connection are a prefix of the enqueued ones, each with one reply |
| StrandRuns.ClientSeesRepliesInOrder | src/server/server.cpp:346-420 | the bytes ever appended for a connection are its first replies in request order with at most one error text at a reply boundary, and an unbroken client got a prefix of them |
| StrandRuns.OpenConnectionAccounts | src/server/server.cpp:218-420 | inflight is the queue plus the running command, the counters match the history, unsent and sent bytes are all that was appended unless the connection broke and is closing, and the output is bounded by its limit plus one error text |
| StrandRuns.DrainedCloseIsComplete | src/server/server.cpp:346-403 | the drained close finds no command queued, in the pool or awaiting delivery, all executed and all appended bytes sent |
| StrandProgress.NeverStalls | src/server/server.cpp:282-403 | in every run, a connection with commands in flight has one of them in the pool or awaiting delivery |
| StrandProgress.ServingWorks | src/server/server.cpp:291-403 | every execution and every delivery leaves strictly less to do |
| StrandProgress.AllServed | src/server/server.cpp:282-403 | from every state of every run, without further input, executions and deliveries in any order end, and then every command queued on every open connection has been executed, none is in flight, and all replies were appended unless the connection is closing |
| StrandProgress.CanDrain | src/server/server.cpp:398-420 | in every run, a closing connection with nothing in flight can be written out and removed |
| StrandRuns.DeliveryIsPrivate | src/server/server.cpp:346-358 | a completion leaves every other connection and its history as they were, whoever has the descriptor now |
| StrandRuns.ErrorInTurnIff | src/server/server.cpp:231-280 | on bad input and on the end of input inside a frame, the error text follows the replies to all earlier commands if and only if none is in flight |
| StrandRuns.ReplyAppendedIff | src/server/server.cpp:346-403 | a completion whose turn it is: its reply is appended if and only if it fits the limit beside the waiting output; otherwise the connection closes |
| StrandRuns.EndOfInputClosesIff | src/server/server.cpp:231-241 | at the end of input between frames a connection is closed at once if and only if nothing is in flight or waiting |
| StrandRuns.ErrorTextIsReply | src/server/server.cpp:247-249 | the error text is the encoded error reply of the protocol |
| StrandRuns.OnlyTheseAppendErrors | src/server/server.cpp:153-499 | no other step appends the error text to any connection |
| StrandRuns.ErrorOvertakesReply | src/server/server.cpp:272-273 | a run in which the error text precedes the reply to an earlier command |
| Intake.ServerRun | src/server/server.cpp:218-280 | the server of every joint run of parsers and strands is the server of a strand run, so the theorems above hold of it |
| Intake.LinkMoves | src/server/server.cpp:218-280 | an arrival, a read of the parser or the end of input adds to a connection's commands exactly the request taken, or none |
| Intake.RunInv | src/server/server.cpp:218-280 | in every joint run the commands of a connection are the first values its parser yielded, and all of them while it reads |
| Intake.CommandsAreFirstValues | src/server/server.cpp:218-280 | in every joint run, for every connection open or closed: its commands are the first values of all bytes received for it, however they arrived, and the executed ones are the first of those |
| IntakeVerdicts.RequestIff | src/server/server.cpp:17-29 | a value is taken as a command if and only if it is an array of one or more present bulk strings |
| IntakeVerdicts.CommandsAreRequests | src/server/server.cpp:218-280 | in every joint run every command of every connection is such a value |
| IntakeVerdicts.BadInputIsReported | src/server/server.cpp:218-280 | in every joint run, the error text was appended to a connection, exactly once, if and only if its parser failed, yielded something that is no command or refused a feed, or its input ended inside a frame; then it is not read any more |
| IntakeVerdicts.GoodInputIsAccepted | src/server/server.cpp:218-280 | in every joint run, while what arrived is a prefix of encoded commands, however cut, each read takes the next of them; once all has arrived and nothing is left, the commands are those sent |
| IntakeVerdicts.DrainEncoded | src/protocol/parser.cpp:205-229 | a stream of encoded values within the limits yields exactly these values |
| IntakeVerdicts.VerdictMoves | src/server/server.cpp:218-280 | a move on a connection in good order either leaves it so, with a command or none, or reports it |
| IntakeVerdicts.RunVerdicts | src/server/server.cpp:218-280 | in every joint run, exactly the connections whose input was bad have been reported, and none of them is read |
| ConnectionObject.Connection.constructor | src/server/server.cpp:153-185 | a new connection |
| ConnectionObject.Connection.LaunchStrand | src/server/server.cpp:291-328 | the head of the queue becomes the job, or the strand stops |
| ConnectionObject.Connection.EnqueueCommand | src/server/server.cpp:282-289 | the command is numbered and queued, and started if the strand is idle |
| ConnectionObject.Connection.FlushResponses | src/server/server.cpp:366-381 | the loop moves the responses that are next in sequence and fit, as the protocol's flush does |
| ConnectionObject.Connection.ApplyCompletion | src/server/server.cpp:346-403 | the connection after a completion is the protocol's note, flush and launch |
| ConnectionObject.Connection.ProtocolFailure | src/server/server.cpp:261-280 | the error text is appended and the connection closes |
| ThreadPool.CreateInv | src/util/thread_pool.cpp:8-20 | a pool with workers and room satisfies the pool invariant |
| ThreadPool.StepKeeps | src/util/thread_pool.cpp:24-82 | every critical section of submitters, workers and shutdown keeps the invariant |
| ThreadPool.RunInv | src/util/thread_pool.cpp:8-82 | every state of every interleaving satisfies the invariant |
| ThreadPool.StartedOnceInOrder | src/util/thread_pool.cpp:24-82 | the started jobs followed by the queue are the accepted jobs in order, the queue is within its limit, and every started job is running or finished |
| ThreadPool.AcceptedIff | src/util/thread_pool.cpp:24-34 | in every run a job is accepted if and only if no shutdown began before and the queue has room |
| ThreadPool.StoppingIff | src/util/thread_pool.cpp:36-54 | the pool is stopping if and only if a shutdown began before |
| ThreadPool.ShutdownRunsEverything | src/util/thread_pool.cpp:36-54 | when the first shutdown returns, all accepted jobs have finished and the final swap dropped nothing |
| ThreadPool.DrainAdvances | src/util/thread_pool.cpp:36-82 | once stopping, every step that changes the pool brings the end of shutdown closer |
| ThreadPool.DrainNeverStuck | src/util/thread_pool.cpp:36-82 | until the shutdown has returned some such step is possible |
| ThreadPool.SecondShutdownFindsAllDoneIff | src/util/thread_pool.cpp:36-54 | in every stopping state of every run a further shutdown changes nothing, and all accepted jobs have run if and only if the queue is empty and no worker runs |
| ThreadPool.SecondShutdownDoesNotWait | src/util/thread_pool.cpp:36-54 | a second shutdown returns with a job still queued |
| ThreadPool.MakePool | src/util/thread_pool.cpp:8-20 | an empty pool in order, or the exception exactly for zero workers or a zero limit |
| ThreadPool.WorkerPool.TrySubmit | src/util/thread_pool.cpp:24-34 | the job is accepted at the end of the queue if and only if the pool is not stopping and the queue is below its limit; otherwise nothing changes |
| ThreadPool.WorkerPool.NextJob | src/util/thread_pool.cpp:68-82 | the worker takes the oldest job, and exits only when stopping with an empty queue |
| ThreadPool.WorkerPool.BeginShutdown | src/util/thread_pool.cpp:36-54 | only the first caller starts the shutdown |
| ThreadPool.WorkerPool.DropQueue | src/util/thread_pool.cpp:36-54 | the final swap of a pool in order drops nothing |
| LockOrder.SortedOnceAscending | src/store/store.cpp:17-27 | sorting without repetition gives a strictly ascending listing of the same mutexes |
| LockOrder.OrderedTogether | src/store/store.cpp:17-27 | locking several shards this way acquires each lock above all held ones, on top of any lower locks |
| LockOrder.OrderedSnapshot | src/persistence/engine.cpp:137-150 | a snapshot takes engine, log and shard locks in rank order and releases all |
| LockOrder.OrderedRecover | src/persistence/engine.cpp:41-65 | recovery does, for any snapshot and any records |
| LockOrder.OperationOrdered | src/persistence/engine.cpp:41-231 | every operation of store, log and engine does |
| LockOrder.LocksWhatItTouches | src/store/store.cpp:84-409 | every operation locks every shard it touches, exclusively unless it only looks |
| LockOrder.HoldsEngine | src/persistence/engine.cpp:41-150 | mutation, snapshot and recovery hold the engine's lock from first to last, and take the log's inside it |
| LockOrder.HoldsAllAtOnce | src/store/store.cpp:161-234 | of several shards, all are locked before the first is released |
| LockOrder.LogLockedTwiceIffSynced | src/persistence/engine.cpp:227-231 | the log is locked to append a record, and a second time if and only if it is synced |
| LockOrder.ProgramJoins | src/store/store.cpp:84-409 | the locks of a sequence of operations are those of each in turn |
| LockOrder.ProgramOrdered | src/store/store.cpp:84-409 | so does every sequence of operations of one thread |
| LockOrder.StepKeeps | src/store/store.cpp:121-234 | granting a shared or exclusive lock keeps discipline and exclusion |
| LockOrder.WaitsUpward | src/store/store.cpp:161-234 | in every reachable state a thread waits only for a lock ranked above all it holds |
| LockOrder.MutualExclusion | src/store/store.cpp:84-409 | in every reachable state two threads hold the same lock only if both hold it shared |
| LockOrder.NoDeadlock | src/store/store.cpp:161-234 | in every reachable state with work left some thread can move, even if shared locks were granted only alone |
| LockOrder.AllWorkDone | src/store/store.cpp:161-234 | runs are finite, and one that cannot go on has finished all work of all threads with no lock held |

## Left out

- The sockets and the reactor (src/net): reads, writes, accepts and wakeups are arbitrary steps.
- The command registry, the applications, statistics and configuration: argument checks, table dispatch to the modelled calls, counters and text.
- Fairness of sockets and threads: `StrandProgress.AllServed` bounds the work of the server; that a client reads its replies, or that a half-closed connection is ever removed, the code does not promise.
- Timing of the everysec thread: it is a sync that may happen at any step.
- Clock jumps, drift and resolution, and the representability test of the monotonic clock: the two clocks differ by a constant.
- File-system failures: a failed write, sync or rename ends the process; the directory sync and the temporary file's name are not modelled.
- A restart is one step of the machine; a crash inside it is treated by ResumeOffset.CrashInsideRecovery beside the machine.
- Wrap-around of the 64-bit memory and connection counters, and of the log offset inside the durability machine (the log object wraps).
- Memory limits of the parser's and encoder's size types beyond the stated limits.
- `expire` and `expiry_wall_time` of the store: shorter forms of the modelled operations.
- `Store::clear` beside other threads: the code calls it before serving.
- Hash quality and random numbers: the shard function is arbitrary and fixed, samples are arbitrary.
- The pool's and the completion queue's own mutexes in the lock order: no other lock is taken while they are held.
- Engine.Engine.DurableExpire: deadlines outside the 64-bit millisecond range are excluded; the command that calls it refuses times that cannot be represented (src/commands/registry.cpp lines 51-60 and 116).
- Engine.Engine.constructor: the exceptions for an empty directory name and a missing clock; directory and clock are not modelled as objects.
- Store.MakeStore: the exception for a missing clock, for the same reason.
- CrashSafety.RestartKeepsIff: speaks of the invariant; what happens to acknowledged writes is stated by ResumeOffset.WritesSurviveIff.
- CrashSafety.StepKeeps: a restart is covered when the log resumes at or above the snapshot's offset; ResumeOffset.WritesSurviveIff shows that acknowledged writes are lost otherwise.
- CrashSafety.RunKeeps: not the stretch from a restart that resumes below the snapshot to the next snapshot; CleanStop.SnapshotEndsDamage shows that runs begin again there.
- CrashSafety.AckedNeverLost: not that stretch either; ResumeOffset.ResumedWritesAreSkipped says what is lost in it.
- CrashSafety.RunSurvivesCrash: not that stretch either, for the same reason.
- SyncedWrites.KeptNeverLost: not that stretch either, for the same reason.
- SyncedWrites.SyncedSurvives: not that stretch either, for the same reason.
- CrashSafety.LostSnapshotNeverInvents: not for a log that still holds records older than the lost snapshot, as after a crash between the rename and the truncation.
- ResumeOffset.WritesSurviveIff: the snapshot's offset leaves room for one more 64-bit offset.
- Wal.RecoveryIsIdempotent: stated without wrapped lengths; Wal.RecoveryIsIdempotentIff and WalLimits.IdempotentUpToSize cover them.
