# A verified model of MinIO's storage formats and background machinery

This project models, in Dafny, the parts of MinIO whose correctness rests on
arithmetic, in-place loops and state that outlives a crash, and proves what
they promise. Disks, the network, the KMS, hashing and the clock are replaced
by small interfaces: a hash is any function of fixed positive output length,
decryption is authenticated, the clock does not go back, and a parser is a
deterministic yes or no. What a call takes from its surroundings (a file's
content, whether a write goes through, what another goroutine does meanwhile)
is a parameter, and the results hold for all of them.

| files | subject |
|---|---|
| `BitrotFormat`, `BitrotStreaming`, `BitrotVerify`, `BitrotWhole` | one stored format seen by its writer, its seeking reader and its verifier |
| `MessagePack`, `MessagePackValues`, `MessagePackGrammar`, `MessagePackMap`, `MessagePackStruct` | the wire format, its values as the "Formats" section of the MessagePack specification defines them, and the decode loop every generated codec shares |
| `BucketStats`, `BucketMetadata`, `HealingTracker` | three generated codecs, the framed metadata file, the tracker file |
| `HealingTracker`, `HealingRun` | the healing tracker's operations and whole runs of healing with crashes |
| `HealResults`, `HealSequenceMap` | the buffer of heal results; the map of heal sequences |
| `ObjectLock` | the retention guards, and safety over whole runs |
| `BucketMetadata`, `BucketMigration`, `BucketMetadataSys` | checks on save, legacy files with crashes, coherence of the cache |
| `EtcdEncryption` | re-encrypting IAM keys, stopped anywhere |
| `S3Url` | the S3 flavour of URL escaping |
| `ReplicationStats`, `ReplicationPool`, `ReplicationReset` | counters, workers and kill tokens, reset IDs |
| `Bootstrap` | comparing cluster layouts |

`dafny verify dfyconfig.toml` checks everything. Imperative code is modelled
by classes and methods proved against functions on values; state machines are
a `Step` (or `Next`) function and theorems about every run of it.

## Where the code does not do what one would expect

These are consequences of the code as it stands. Each comes with the exact
condition under which the expected property holds, as a guard that can be
looked at before the call.

- A whole-file bitrot reader keeps the buffer of a failed first call and hands
  it out at the second: exactly when the range is not empty and is not there
  in full under the expected digest (`BitrotWhole.UnverifiedExactly`).
- `bucketDone` edits its queue while ranging over it; it runs out of range
  exactly when the bucket is queued last and also earlier
  (`HealingTracker.HealingTracker.BucketDone`). No run of healing gets there,
  since its queues hold no bucket twice (`HealingRun.CountersAreCompletedAttempts`).
- A heal that restarts on the bucket it was interrupted in does not reset the
  counters, so versions healed again are counted again. The counters hold
  nothing of abandoned attempts exactly when every bucket started is not the
  one interrupted last, or nothing was counted for that one
  (`HealingRun.AbandonedNeverCountedExactly`).
- The two object-lock legacy files are applied in map order; the result
  depends on that order exactly when they disagree
  (`BucketMigration.OrderIrrelevantExactly`).
- A legacy file whose deletion fails (only logged) is applied again at the next
  load. It is harmless exactly when the record's field for it holds the same
  bytes; for a lock file, when versioning is on besides
  (`BucketMigration.LeftoverHarmlessExactly`). It undoes any later update that
  stored something else (`LeftoverRevertsExactly`). A leftover targets file
  beside targets encrypted since blocks the bucket unless the parser takes the
  pair (`LeftoverTargetsExactly`).
- `stopHealSequence` waits for the sequence's `endTime`, not for its traversal,
  and then deletes by path. Every un-ended sequence stays registered exactly if
  no stop finds an un-ended one at its path
  (`HealSequenceMap.RegisteredExactly`); `TwoGoroutinesOnOnePath` is a run in
  which one does. Traversals on related paths are never under way at once
  exactly if no launch is let through beside one whose sequence has ended or
  has lost its entry (`TraversalsApartExactly`), which a forced start does
  (`ForcedStartBesideTraversal`).
- An overwrite that names a version under Compliance retention skips the check
  if it comes from a replica or the lookup fails. The retention is lost exactly
  to such an overwrite of one of four kinds: the legal-hold header is malformed;
  the retention headers parse, are allowed and ask for less; there are none, and
  it is a replica's or the bucket has no default; there are none and the
  bucket's default, granted, is less or is not given
  (`ObjectLock.ComplianceLostExactly`). Governance retention is never asked
  about on overwrite, though the guard's comment says so
  (`GovernanceNeverConsulted`, `GovernanceLostExactly`).
- A malformed legal-hold header is answered with no error, before the
  permission to set retention is looked at (`ObjectLock.DeniedRetentionExactly`).
  The legal-hold permission the guard is handed is not looked at by any branch;
  the model has no such parameter.
- A failure and the retry that completes it leave the failed counters as they
  were exactly when both are object operations, or the retry has nothing to
  give back (`ReplicationStats.RetryBalancesExactly`). A failed delete is not
  counted; the retry of a delete marker's takes one off all the same, a purge's,
  which reports "COMPLETE" and not "COMPLETED", does not
  (`DeleteRetryUnderflows`).
- What is queued can come to replicate a version twice under one reset ID
  exactly if an ID occurs twice among those completed, queued and to be retried
  (`ReplicationReset.MayRepeatExactly`). A run is never there exactly if no scan
  queues the version while a task of the current ID has completed, is queued or
  is to be retried (`AtMostOncePerResetExactly`); by the entry on the version
  such a completion is one that left none (`QueuesAgainExactly`). Two scans in a
  row do it, and one after a retry (`HurriedScansMayRepeat`, `RetryMayRepeat`).
- A reset stops asking for a version exactly once one of its own tasks has
  replicated it and saved the metadata. An attempt that finds the target in sync
  leaves no entry, so each later scan queues the version again
  (`ReplicationReset.SettledExactly`, `InSyncScannedForEver`).
- `Diff` indexes out of range on some layouts whose pools are not full
  (`Bootstrap.UnfilledPoolsRunOff`; exactly when: `Bootstrap.Diff`). Servers
  build full pools, for which it does not (`Bootstrap.NeverRunsOff`).
- Without a KMS, re-encryption writes the decrypted bytes of a value back. It
  keeps its meaning exactly when they are valid UTF-8, as the JSON of IAM
  entries is (`EtcdEncryption.MigrateKey`, `StandsForItselfExactly`); a value
  with a KMS header makes it call through a nil interface.
- A struct with a string or byte field of 4 GiB or more is written under a
  length cut to 32 bits; decoding gives a struct back exactly if its lengths fit
  (`MessagePackStruct.RoundTripExactly`).

## Model

| member | source | states |
|---|---|---|
| BitrotFormat.EncodedLength | cmd/bitrot.go:144-149 | the stored length of any payload is bitrotShardFileSize of its length |
| BitrotFormat.ShardFileSizeInjective | cmd/bitrot.go:144-149 | no two payload lengths share a shard file size |
| BitrotFormat.CeilMonotone | cmd/utils.go:663-678 | ceilFrac never decreases in a non-negative numerator |
| BitrotFormat.DecodeEncode | cmd/bitrot-streaming.go:43-61 | decoding the interleaved format gives back every payload |
| BitrotFormat.EncodeDecode | cmd/bitrot.go:152-204 | whatever decodes is the encoding of what it decodes to, so the two are inverse |
| BitrotFormat.EncodeAppend | cmd/bitrot-streaming.go:138-160 | cutting a payload at a shard boundary cuts its stored form |
| BitrotFormat.FramesEncode | cmd/bitrot-streaming.go:43-61 | writing chunk after chunk yields the stored form of the payload |
| BitrotStreaming.StreamingWriter.Write | cmd/bitrot-streaming.go:43-61 | on a sink that may fail: the sink holds a prefix of the frame, the count is the chunk bytes that went out, an error exactly when there was no room |
| BitrotStreaming.WrittenIsPrefix | cmd/bitrot-streaming.go:43-61 | after any session the sink holds a prefix of the stored form, all of it exactly when there was room |
| BitrotStreaming.WrittenLength | cmd/bitrot-streaming.go:88-104 | a complete session writes as many bytes as announced to CreateFile |
| BitrotStreaming.StreamingReader.ReadAt | cmd/bitrot-streaming.go:138-186 | seeks, opens, reads and checks one chunk exactly as the step function says, buffer and errors included |
| BitrotStreaming.StreamingReader.constructor | cmd/bitrot-streaming.go:188-200 | the till offset is translated to the stored offset |
| BitrotStreaming.OnlyIntactData | cmd/bitrot-streaming.go:138-186 | data comes back only for an aligned, consecutive offset and from right behind its own digest |
| BitrotStreaming.ChangedChunkRejected | cmd/bitrot-streaming.go:176-183 | a chunk changed under an intact digest is corrupt, short of a collision |
| BitrotStreaming.SectionOfEncoding | cmd/bitrot-streaming.go:145-160 | the reader's offset arithmetic selects the stored form of exactly the requested range |
| BitrotStreaming.ConsecutiveReads | cmd/bitrot-streaming.go:138-186 | from any aligned offset, consecutive reads return exactly that slice of the payload, from disk or inline |
| BitrotStreaming.ReadsAreSound | cmd/bitrot-streaming.go:138-186 | over any bytes on disk, a run of successful reads returned a payload whose stored form is what was read |
| BitrotVerify.BitrotVerify | cmd/bitrot.go:152-204 | accepts exactly shard files of the announced sizes; the other algorithms exactly a stream of that length and digest |
| BitrotVerify.VerifyChunks | cmd/bitrot.go:170-202 | the loop accepts exactly intact streams and ends, even on short ones |
| BitrotVerify.IntactDecodes | cmd/bitrot.go:170-202 | the loop's verdict is that the stream begins with something that decodes |
| BitrotWhole.WholeWriter.Write | cmd/bitrot-whole.go:36-50 | file and hash advance together; bytes past a failed append never reach the hash |
| BitrotWhole.WholeReader.ReadAt | cmd/bitrot-whole.go:71-87 | fills its buffer once and hands it out piece by piece as the step function says |
| BitrotWhole.RunDeliversPrefix | cmd/bitrot-whole.go:71-87 | a run hands out a prefix of the range the first call selected, which succeeded exactly when that range is there and the digest matches |
| BitrotWhole.FailedReaderHandsOutUnverified | cmd/bitrot-whole.go:71-87 | after a first call that failed for any reason the second hands out the unverified buffer |
| BitrotWhole.UnverifiedExactly | cmd/bitrot-whole.go:71-87 | a reader can hand out unverified bytes exactly when its range is not empty and not there in full under the digest |
| BitrotWhole.WholeRoundTrip | cmd/bitrot-whole.go:36-87 | whatever was written chunk by chunk, any range is read back in any pieces |
| BitrotWhole.WriteAll | cmd/bitrot-whole.go:36-50 | a session leaves the chunks in the file and its digest in Sum |
| BitrotWhole.WriteThenVerify | cmd/bitrot.go:152-163 | the verifier accepts what a session wrote |
| S3Url.S3URLEncode | cmd/api-utils.go:40-94 | all three code paths produce the byte-wise encoding |
| S3Url.EncodeInto | cmd/api-utils.go:77-94 | the general loop writes in bounds and fills its buffer exactly |
| S3Url.EscapeSpaces | cmd/api-utils.go:67-75 | the spaces-only path copies and replaces in place |
| S3Url.EncodedLength | cmd/api-utils.go:40-65 | the encoding needs len(s) + 2*hexCount bytes |
| S3Url.EncodedByteExactly | cmd/api-utils.go:24-94 | letters, digits and - _ . / * stand for themselves, a space becomes a plus, any other byte a percent sign and two upper-case hex digits |
| S3Url.DecodeEncode | cmd/api-utils.go:24-94 | unescaping recovers every name |
| S3Url.EncodeInjective | cmd/api-utils.go:24-94 | two names never encode alike |
| S3Url.EncodedAlphabet | cmd/api-utils.go:24-36 | the output holds only unreserved bytes, + and % |
| S3Url.S3EncodeName | cmd/api-utils.go:97-108 | names are encoded exactly for encoding type url, in any case |
| MessagePack.BigEndianRoundTrip | cmd/bucket-stats_gen.go:146-163 | a big-endian number that fits its width is read back |
| MessagePack.ReadUintToken | cmd/bucket-stats_gen.go:146-163 | every unsigned number is read back from its shortest form |
| MessagePack.ReadIntToken | cmd/background-newdisks-heal-ops_gen.go:411-418 | every signed number is read back from its shortest form |
| MessagePackGrammar.SkipExactly | cmd/bucket-stats_gen.go:219-225 | Skip passes over exactly one value of the specification's grammar, in any format and whatever follows; and what it passes over whole is such a value |
| MessagePackGrammar.ReadsAnyFormat | cmd/background-newdisks-heal-ops_gen.go:478-651 | strings, byte strings, integers and booleans are read from every format the specification has for them |
| MessagePackGrammar.ReadsOnlyItsKind | cmd/background-newdisks-heal-ops_gen.go:478-651 | and nothing else is: what a reader accepts begins with a value of its kind, which is what it reads |
| MessagePackValues.ReadEncValue | cmd/background-newdisks-heal-ops_gen.go:405-475 | every kind of field is read back from its own bytes, whatever follows |
| MessagePackValues.ValueWithinSize | cmd/background-newdisks-heal-ops_gen.go:654-664 | no value is longer than the bound msgp's size constants give |
| MessagePackMap.DecodeAnyOrder | cmd/bucket-stats_gen.go:166-229 | a map in any order, with repeats and with unknown keys that hold any value of the grammar, makes exactly the assignments of its known entries and returns the rest of the input |
| MessagePackMap.AnyOrder | cmd/bucket-stats_gen.go:166-229 | if the known entries carry z's values and mention all fields, the target becomes z whatever it held |
| MessagePackMap.AssignsMentioned | cmd/bucket-stats_gen.go:166-229 | fields mentioned become z's, fields left out keep what they held |
| MessagePackMap.LoopTurn | cmd/bucket-stats_gen.go:175-226 | one turn of the loop takes one entry off and puts its assignment last |
| MessagePackStruct.RoundTrip | cmd/bucket-stats_gen.go:141-229 | UnmarshalMsg(MarshalMsg(z) ++ rest) is z and rest, over any old contents |
| MessagePackStruct.RoundTripExactly | cmd/background-newdisks-heal-ops_gen.go:405-651 | over contents that fit, exactly if z's lengths fit the format |
| MessagePackValues.ReadValueFits | cmd/background-newdisks-heal-ops_gen.go:478-651 | whatever is read fits the format's lengths |
| MessagePackStruct.WrittenNext | cmd/bucket-stats_gen.go:141-163 | one more name and value appended is one more field of the encoding |
| BucketStats.BucketReplicationStats.MarshalMsg | cmd/bucket-stats_gen.go:141-163 | appends the encoding of its six fields |
| BucketStats.BucketReplicationStats.UnmarshalMsg | cmd/bucket-stats_gen.go:166-229 | makes exactly the decoded assignments and returns the rest, or fails exactly when decoding does |
| BucketStats.BucketReplicationStats.MsgsizeBounds | cmd/bucket-stats_gen.go:232-235 | the encoding never exceeds Msgsize |
| BucketStats.RepSound | cmd/bucket-stats_gen.go:141-229 | every field has its own short ASCII name, which the switch recognises |
| BucketStats.BucketStats.MarshalMsg | cmd/bucket-stats_gen.go:289-300 | appends a one-entry map holding the nested encoding |
| BucketStats.BucketStats.UnmarshalMsg | cmd/bucket-stats_gen.go:303-336 | decodes into the nested struct as it stands, map after map |
| BucketStats.BucketStats.MsgsizeBounds | cmd/bucket-stats_gen.go:339-342 | the nested encoding never exceeds Msgsize |
| BucketStats.StatsRoundTrip | cmd/bucket-stats_gen.go:289-336 | what BucketStats writes decodes to the same counters |
| BucketStats.StatsAnyOrder | cmd/bucket-stats_gen.go:303-336 | so does a nested map in any order, among unknown keys inside and outside |
| HealingTracker.HealingTracker.MarshalMsg | cmd/background-newdisks-heal-ops_gen.go:405-475 | appends the encoding of its twenty fields |
| HealingTracker.HealingTracker.UnmarshalMsg | cmd/background-newdisks-heal-ops_gen.go:478-651 | makes exactly the decoded assignments and returns the rest |
| HealingTracker.HealingTracker.Msgsize | cmd/background-newdisks-heal-ops_gen.go:654-664 | bounds the encoding, lists included |
| HealingTracker.LayoutSound | cmd/background-newdisks-heal-ops_gen.go:405-651 | all twenty names are recognised as their own field |
| HealingTracker.UnmarshalStrings | cmd/background-newdisks-heal-ops_gen.go:603-641 | the list loop reads exactly the announced strings |
| HealingTracker.HealingTracker.Save | cmd/background-newdisks-heal-ops.go:140-157 | the file holds exactly the stamped tracker; an unknown location is looked up first |
| HealingTracker.HealingTracker.LoadHealingTracker | cmd/background-newdisks-heal-ops.go:86-110 | succeeds exactly when the file decodes and is this disk's or nobody's |
| HealingTracker.LoadSaved | cmd/background-newdisks-heal-ops.go:86-157 | a saved tracker is loaded back as it was by its own disk, under the loading disk's name if it had none, and by no other |
| HealingTracker.HealingTracker.IsHealed | cmd/background-newdisks-heal-ops.go:167-174 | true exactly for buckets in the healed list |
| HealingTracker.HealingTracker.Resume | cmd/background-newdisks-heal-ops.go:177-182 | the counters go back to the resume numbers |
| HealingTracker.HealingTracker.BucketDone | cmd/background-newdisks-heal-ops.go:186-198 | out of range exactly when the bucket is queued last and also earlier; otherwise only its copies go, and all of them from a queue without duplicates |
| HealingTracker.HealingTracker.DeleteInRange | cmd/background-newdisks-heal-ops.go:192-197 | the same of the in-place loop itself |
| HealingTracker.SweepDeletes | cmd/background-newdisks-heal-ops.go:192-197 | what one in-place deletion keeps true of the shared array |
| HealingTracker.HealingTracker.SetQueuedBuckets | cmd/background-newdisks-heal-ops.go:202-210 | the queue is the unhealed buckets in order |
| HealingTracker.HealingTracker.StartBucket | cmd/global-heal.go:173-184 | going on with another bucket resets the counters, with the same one forwards |
| HealingTracker.HealingTracker.VersionHealed | cmd/global-heal.go:229-242 | one version adds one and its size to the two counters of its outcome, mod 2^64, and to no other |
| HealingRun.CountersAreCompletedAttempts | cmd/global-heal.go:155-290 | in every run with crashes, the resume numbers are the completed attempts' contributions, the healed list is the completed buckets, and queued and healed are disjoint and cover the listed buckets |
| HealingRun.AbandonedNeverCountedExactly | cmd/global-heal.go:173-184 | in every run with crashes the counters hold nothing of abandoned attempts exactly when every start is of another bucket or of one with nothing counted |
| HealingRun.CarriesExactly | cmd/global-heal.go:173-184 | one start carries earlier counts over exactly when it is not such a one |
| HealingRun.GuardedRunsCountCompletedOnly | cmd/background-newdisks-heal-ops.go:177-198 | after such runs the resume numbers are the completed attempts alone |
| HealingRun.SameBucketCountsTwice | cmd/global-heal.go:173-184 | a restart on the same bucket counts an object twice |
| HealingRun.StepKeepsInv | cmd/global-heal.go:155-290 | every event keeps tracker and ledger in agreement, in memory and on disk |
| HealingRun.QueueKeeps | cmd/background-newdisks-heal-ops.go:202-210 | re-queueing keeps queued and healed disjoint and covering |
| HealResults.ResultsInOrder | cmd/admin-heal-ops.go:339-383 | popped batches and buffer together are the accepted items in order, numbered 1, 2, 3, ...; the buffer keeps its bound |
| HealResults.HealSequence.PushHealResultItem | cmd/admin-heal-ops.go:579-635 | pushed at once if there is room; else it ends as the first round of its waiting says that makes room or ends it; the buffer sees one attempt among the pops |
| HealResults.HealSequence.PopHealStatus | cmd/admin-heal-ops.go:339-383 | the right token takes the whole buffer, even if encoding it fails; a wrong one takes nothing |
| HealSequenceMap.NeverOverlapping | cmd/admin-heal-ops.go:279-333 | in every reachable state no two un-ended entries are prefix-related |
| HealSequenceMap.AtMostOneCovers | cmd/admin-heal-ops.go:279-333 | no object path lies under two un-ended entries |
| HealSequenceMap.EndedExactly | cmd/admin-heal-ops.go:555-564 | a sequence has not ended until its end, and the background one never does |
| HealSequenceMap.RegisteredExactly | cmd/admin-heal-ops.go:235-333 | along every run all un-ended sequences stay registered exactly if no stop finds an un-ended one |
| HealSequenceMap.OnlyAMisdirectedStopLoses | cmd/admin-heal-ops.go:235-276 | the step of it: such a stop, and nothing else, unregisters one |
| HealSequenceMap.UnEndedNeverRelated | cmd/admin-heal-ops.go:235-333 | in every run without such a stop no two un-ended sequences have related paths |
| HealSequenceMap.TraversalsApartExactly | cmd/admin-heal-ops.go:235-688 | in every run no two traversals under way have related paths exactly if no launch passes the check beside one whose sequence has ended or lost its entry |
| HealSequenceMap.OnlyStoppedTraversalsCollide | cmd/admin-heal-ops.go:674-688 | without a misdirected stop that is: beside one that was stopped and has not reached a safe point |
| HealSequenceMap.ForcedStartBesideTraversal | cmd/admin-heal-ops.go:261-285 | a start, a stop and a forced start after which two traversals are on one path |
| HealSequenceMap.TwoGoroutinesOnOnePath | cmd/admin-heal-ops.go:235-276 | a run in which two un-ended sequences are on one path |
| HealSequenceMap.AllHealState.CommitLaunch | cmd/admin-heal-ops.go:298-315 | under the lock: refused exactly when an un-ended entry is prefix-related, else exactly its entry is added |
| HealSequenceMap.AllHealState.StopHealSequence | cmd/admin-heal-ops.go:235-276 | stops, waits while others act, deletes by path; still stopping exactly when the sequence has not ended by then |
| HealSequenceMap.AllHealState.LaunchNewHealSequence | cmd/admin-heal-ops.go:279-333 | each way to end exactly: already running, still stopping, a sequence known already, overlapping, launched; with the map it leaves |
| HealSequenceMap.AllHealState.LaunchUndisturbed | cmd/admin-heal-ops.go:279-333 | an undisturbed plain start on a path related to nothing un-ended launches and adds exactly its entry |
| HealSequenceMap.AllHealState.CleanOnce | cmd/admin-heal-ops.go:187-211 | deletes exactly the stale ended entries while walking the map |
| ObjectLock.CheckPutObjectLockAllowed | cmd/bucket-object-lock.go:252-344 | for all inputs when a request goes through, and the retention and hold it stores then: without object locking exactly without lock headers; with it, when the version may be replaced and what is asked for may be had |
| ObjectLock.ComplianceSafe | cmd/bucket-object-lock.go:60-240 | in every run a Compliance version stays, stays Compliance and keeps its date until then |
| ObjectLock.GovernanceSafe | cmd/bucket-object-lock.go:60-240 | the same for Governance without bypass headers |
| ObjectLock.LegalHoldSafe | cmd/bucket-object-lock.go:60-170 | a held version stays until the hold is changed |
| ObjectLock.GoneExactly | cmd/bucket-object-lock.go:60-170 | over all events, a version goes exactly if it is not on hold and its retention is over, or is Governance's and bypassed by someone who may |
| ObjectLock.RetentionSetExactly | cmd/bucket-object-lock.go:178-240 | a change of retention takes effect exactly if the time is known, the old one is over, kept or bypassed, and policy allows it |
| ObjectLock.UnseenVersionExactly | cmd/bucket-object-lock.go:86-240 | when the version cannot be looked at, a delete goes through exactly if it is missing or a delete marker, a change of retention never |
| ObjectLock.ComplianceLostExactly | cmd/bucket-object-lock.go:60-344 | before its date a Compliance version loses its retention exactly to an overwrite that skips the check and whose headers, requester, and bucket default take it away |
| ObjectLock.GovernanceLostExactly | cmd/bucket-object-lock.go:60-344 | before its date a Governance version loses its retention exactly to a granted bypass or to an overwrite whose headers, requester, and bucket default take it away |
| ObjectLock.NoClockNoChange | cmd/bucket-object-lock.go:60-240 | without a trusted time retention is not given up |
| ObjectLock.DeleteStricterThanLifecycle | cmd/bucket-object-lock.go:60-170 | the delete guard refuses whatever the lifecycle guard does, and more only at the date itself |
| ObjectLock.ComplianceOverwriteExactly | cmd/bucket-object-lock.go:275-344 | for every request, default and clock: an overwrite of an unexpired Compliance version gets through exactly when the version is not looked at and the request is granted on its own |
| ObjectLock.GovernanceNeverConsulted | cmd/bucket-object-lock.go:242-344 | for all inputs the decision does not depend on Governance mode or date |
| ObjectLock.DeniedRetentionExactly | cmd/bucket-object-lock.go:302-323 | a request denied retention gets through exactly with a malformed legal-hold header |
| ObjectLock.DefaultNeedsNoHeader | cmd/bucket-object-lock.go:327-342 | the default retention goes to requests without any lock header, and to no other |
| BucketMetadata.BucketMetadata.MarshalMsg | cmd/bucket-metadata_gen.go:269-315 | appends the encoding of its fourteen fields |
| BucketMetadata.BucketMetadata.UnmarshalMsg | cmd/bucket-metadata_gen.go:318-429 | makes exactly the decoded assignments and returns the rest |
| BucketMetadata.BucketMetadata.MsgsizeBounds | cmd/bucket-metadata_gen.go:432-435 | the encoding never exceeds Msgsize |
| BucketMetadata.LayoutSound | cmd/bucket-metadata_gen.go:269-429 | all fourteen names are recognised as their own field |
| BucketMetadata.MetadataRoundTripExactly | cmd/bucket-metadata_gen.go:269-429 | an encoded record decodes to itself exactly if its lengths fit the format |
| BucketMetadata.BucketMetadata.constructor | cmd/bucket-metadata.go:100-114 | a new record has a name, a date and nothing else |
| BucketMetadata.BucketMetadata.ParseAllConfigs | cmd/bucket-metadata.go:166-254 | succeeds exactly when every configuration that is set parses, versioning as object locking demands it |
| BucketMetadata.ParsedTwice | cmd/bucket-metadata.go:209-211 | a record that parsed parses again to itself and has versioning on if locked by default |
| BucketMetadata.BucketMetadata.Load | cmd/bucket-metadata.go:118-146 | each error exactly when, or exactly the record stored |
| BucketMetadata.BucketMetadata.Save | cmd/bucket-metadata.go:351-370 | a file is written exactly if all parses and the write goes through, and it is the record's; else the file stays |
| BucketMetadata.LoadSavedExactly | cmd/bucket-metadata.go:118-370 | what was saved is what is loaded exactly if it fits the format |
| BucketMigration.ConvertLegacyConfigs | cmd/bucket-metadata.go:256-348 | in some order of the map: which record is saved, which files are deleted, and what stays on failure |
| BucketMigration.OrderIrrelevantExactly | cmd/bucket-metadata.go:304-332 | the order never shows exactly when the lock files do not disagree |
| BucketMigration.ConversionSaves | cmd/bucket-metadata.go:304-336 | without a conflict every order saves the same record; a failure leaves the store |
| BucketMigration.TakesOverExactly | cmd/bucket-metadata.go:256-348 | what a completed conversion has made of the record: each legacy file its configuration, the old flag the lock with versioning, all else as it was |
| BucketMigration.RerunReproduces | cmd/bucket-metadata.go:256-348 | after a crash with any subset of the files left, converting again changes nothing |
| BucketMigration.LeftoverHarmlessExactly | cmd/bucket-metadata.go:304-346 | leftover files leave a record alone exactly when each one's content is what its field holds, and versioning is on for the lock files |
| BucketMigration.LeftoverRevertsExactly | cmd/bucket-metadata.go:304-346 | one leftover file undoes any later update of its configuration, without a trace exactly when that stored the same bytes |
| BucketMigration.LeftoverTargetsExactly | cmd/bucket-metadata.go:304-412 | a leftover targets file lets the bucket be saved again exactly if the parser takes it beside the newer metadata |
| BucketMetadataSys.LoadBucketMetadata | cmd/bucket-metadata.go:149-162 | load, conversion of whatever legacy files there are in some order, and target encryption, with the files afterwards |
| BucketMetadataSys.LegacyLoadSettles | cmd/bucket-metadata.go:149-162 | a successful first load with legacy files leaves a file that stands for the record |
| BucketMetadataSys.MigrateTargetConfig | cmd/bucket-metadata.go:389-405 | plain targets are encrypted and saved exactly when there is a KMS |
| BucketMetadataSys.LoadSettles | cmd/bucket-metadata.go:149-162 | a successful load leaves a file that every later load reads alike and leaves alone |
| BucketMetadataSys.LoadsExactly | cmd/bucket-metadata.go:149-162 | a load succeeds exactly if the file reads, all of it parses, and what has to be saved can be; and what it answers |
| BucketMetadataSys.GetConfigIsFreshLoad | cmd/bucket-metadata-sys.go:413-442 | after any history over any files, what is answered is what a fresh load gives, with versioning on if locked by default |
| BucketMetadataSys.LastStoredIsAnswered | cmd/bucket-metadata-sys.go:413-442 | after a record is stored by an update or a creation, whatever is loaded, forgotten, reset, done to other buckets or fails, GetConfig answers exactly that record |
| BucketMetadataSys.UpdateChangesOnly | cmd/bucket-metadata-sys.go:135-192 | an update stores the data given and leaves every other stored field, but for the versioning rule |
| BucketMetadataSys.UpdateSucceedsExactly | cmd/bucket-metadata-sys.go:131-192 | an update succeeds exactly if the bucket loads, the configuration is known and allowed there, targets can be encrypted, and the record parses and is written |
| BucketMetadataSys.StepKeepsCoherent | cmd/bucket-metadata-sys.go:48-192 | every operation keeps the cache coherent with the files |
| BucketMetadataSys.BucketMetadataSys.Update | cmd/bucket-metadata-sys.go:131-192 | the whole new state, refusals included |
| BucketMetadataSys.BucketMetadataSys.GetConfig | cmd/bucket-metadata-sys.go:413-442 | nothing for the system bucket, else the cached record, else what a load gives, which is kept; nothing only if that fails |
| BucketMetadataSys.BucketMetadataSys.Set | cmd/bucket-metadata-sys.go:63-73 | keeps a record, except for the system bucket |
| BucketMetadataSys.BucketMetadataSys.Remove | cmd/bucket-metadata-sys.go:48-56 | forgets one bucket and nothing else |
| BucketMetadataSys.BucketMetadataSys.Reset | cmd/bucket-metadata-sys.go:502-508 | forgets everything |
| BucketMetadataSys.BucketMetadataSys.Load | cmd/bucket-metadata-sys.go:489-499 | by hundreds, every bucket of a list without repeats is loaded once and none is missed |
| BucketMetadataSys.LoadAllKeeps | cmd/bucket-metadata-sys.go:489-499 | loading a list of buckets keeps the cache coherent |
| BucketMetadataSys.LoadAllExactly | cmd/bucket-metadata-sys.go:489-499 | loading a list of different buckets keeps exactly those whose load succeeds, each with its own record |
| BucketMetadataSys.BucketMetadataSys.ConcurrentLoad | cmd/bucket-metadata-sys.go:462-486 | a batch loads each of its buckets, taking effect in any order, and skips those that fail |
| BucketMetadataSys.OrderOfLoadsIrrelevant | cmd/bucket-metadata-sys.go:462-486 | for different buckets the order does not matter |
| BucketMetadataSys.MakeKeeps | cmd/erasure-server-pool.go:560-575 | a new bucket's metadata is saved and kept coherently |
| EtcdEncryption.Migrate | cmd/config-encrypted.go:66-133 | wherever it stops every key keeps its plaintext; completed with a KMS all keys are under the joined-path context; with writes enough it completes if the KMS encrypts every listed plaintext, or without one if no value calls for it |
| EtcdEncryption.MigrateKey | cmd/config-encrypted.go:88-126 | one key, readable or not: each of the five ways to end exactly when; at most one write; the meaning is kept with a KMS, and without one exactly when the decrypted bytes stand for themselves |
| EtcdEncryption.Decrypt | cmd/config-encrypted.go:97-113 | the decryptions in their order, each used exactly when those before it fail; a KMS that is not there is called exactly when |
| EtcdEncryption.MigrateRepeatedly | cmd/config-encrypted.go:66-133 | any number of runs, each cut off anywhere: every key keeps its plaintext, and a last run with writes enough leaves every listed key migrated if nothing but writes stood in the way at first |
| EtcdEncryption.StandsForItselfExactly | cmd/config-encrypted.go:97-126 | bytes written back without a KMS keep their meaning exactly when they are valid UTF-8 |
| ReplicationPool.LiveIsSizePlusTokens | cmd/bucket-replication.go:933-1023 | in every interleaving live workers are the size plus undelivered kill tokens |
| ReplicationPool.ResizeSettles | cmd/bucket-replication.go:994-1023 | after a resize to n exactly n workers remain once the tokens are delivered |
| ReplicationPool.TokensCanDrain | cmd/bucket-replication.go:950-1007 | from every reachable pool the tokens can all be delivered |
| ReplicationPool.DrainableExactly | cmd/bucket-replication.go:994-1007 | a pool's tokens can all be delivered exactly if its size is not negative |
| ReplicationPool.ConfiguredPoolsDrain | internal/config/api/api.go:191-206 | sizes below one are refused, so at any time of any run the tokens can all be delivered |
| ReplicationPool.ReplicationPool.ResizeWorkers | cmd/bucket-replication.go:994-1007 | one worker or one token at a time until the size is n |
| ReplicationPool.AtMostTwoAttempts | cmd/bucket-replication.go:847-853 | each submitted object is attempted at most twice |
| ReplicationPool.AttemptedTwiceExactly | cmd/bucket-replication.go:847-853 | a submitted object is attempted a second time exactly if its first attempt fails and the failed-task queue has room, and never a third |
| ReplicationReset.SplitWritten | cmd/bucket-replication.go:797-804 | the written entry splits back into its time and its ID, whatever the ID holds |
| ReplicationReset.CompletedStaysCompleted | cmd/bucket-replication.go:1299-1321 | once completed and saved with its entry under the current ID, resync refuses the version while that ID is current, and never indexes out of range |
| ReplicationReset.StatusTellsTheTruth | cmd/bucket-replication.go:652-838 | a version becomes Completed only when the target holds it and always when an attempt gets it there and saves; Failed only by a retry or heal that did not |
| ReplicationReset.ScannedFailureHeals | cmd/data-scanner.go:1148-1189 | a scan queues a heal of what is waiting or failed, and the heal that works completes it |
| ReplicationReset.ResyncExactly | cmd/bucket-replication.go:1299-1321 | after any run of writes resync replicates exactly by the reset's date and whether the last entry is of another ID |
| ReplicationReset.SettledExactly | cmd/bucket-replication.go:652-804 | over any run until the next reset, the reset stops asking for the version exactly once a task of its ID has replicated it and saved |
| ReplicationReset.InSyncScannedForEver | cmd/bucket-replication.go:657-689 | a version whose target is in sync is queued by every later scan |
| ReplicationReset.MayRepeatExactly | cmd/bucket-replication.go:617-853 | what is queued can replicate the version twice under one ID exactly if an ID occurs twice among those completed, queued and to be retried |
| ReplicationReset.AtMostOncePerResetExactly | cmd/bucket-replication.go:617-853 | along every run that is never so exactly if no scan queues the version while a task of the current ID has completed, is queued or is to be retried |
| ReplicationReset.QueuesAgainExactly | cmd/bucket-replication.go:1299-1321 | which scans do, by the entry, the date and the queues |
| ReplicationReset.AtMostOncePerReset | cmd/bucket-replication.go:797-853 | none does if scans wait for queued tasks and every replication leaves its entry |
| ReplicationReset.HurriedScansMayRepeat | cmd/data-scanner.go:1148-1189 | two scans in a row put any version in reset at risk |
| ReplicationReset.RetryMayRepeat | cmd/bucket-replication.go:847-853 | so does a scan after a retry, which leaves no entry |
| ReplicationStats.SubtractionByComplement | cmd/bucket-replication-stats.go:70-90 | adding the complement of n-1 subtracts n, zero included |
| ReplicationStats.ReplicationStats.Update | cmd/bucket-replication-stats.go:56-95 | only the named bucket's counters move, and as the status change says |
| ReplicationStats.StepFaithfulExactly | cmd/bucket-replication-stats.go:56-95 | an update by any type of operation keeps the counters true exactly for the accounted status changes |
| ReplicationStats.CountersFaithful | cmd/bucket-replication-stats.go:56-95 | over any accounted history: number and size of failed objects, bytes completed, and bytes received as replicas, mod 2^64 |
| ReplicationStats.RetryBalancesExactly | cmd/bucket-replication-stats.go:67-88 | a failure and its completing retry cancel out exactly when both are object operations, or there is no size to give back |
| ReplicationStats.DeleteRetryUnderflows | cmd/bucket-replication.go:315-343 | a failed delete and its retry leave the counters alone exactly for a purge; a delete marker's takes a count of zero below zero |
| Bootstrap.Diff | cmd/bootstrap-peer-server.go:60-88 | no difference, and out of range, each exactly when |
| Bootstrap.CountEndpoints | cmd/endpoint.go:284-289 | the total number of endpoints |
| Bootstrap.NeverRunsOff | cmd/bootstrap-peer-server.go:60-88 | between layouts of full, non-empty pools no index is out of range |
| Bootstrap.SameMeansEqual | cmd/bootstrap-peer-server.go:60-88 | between such layouts no difference means equal, hence symmetric and transitive |
| Bootstrap.UnfilledPoolsRunOff | cmd/bootstrap-peer-server.go:60-88 | two layouts with unfilled pools run off |

## Left out

- The streaming form of the codecs (`DecodeMsg`, `EncodeMsg`): the same fields over a buffered reader.
- Timestamps out of normal form: a decoded nanosecond count of a second or more is kept as it is, where Go normalises it.
- Partial effects of a decode that fails: callers drop the struct then.
- `nil` against empty byte slices in bucket metadata: both are the empty sequence.
- The parsed configurations that BucketMetadata keeps in memory beside the stored fields.
- Gateway mode, peer notification, events, logging, tracing, and the HTTP handlers around all of this.
- Concurrent `Update` calls on one bucket, and the first two concurrent updates of one bucket's replication counters.
- HealResults.HealSequence.PushHealResultItem: claims no progress for the idle timeout, whose deferred drain waits on a timer already received from.
- BucketMetadataSys.GetConfigIsFreshLoad: the history starts from buckets without legacy files; a first load with some is BucketMetadataSys.LegacyLoadSettles, and files left over after it are BucketMigration.LeftoverHarmlessExactly.
- BucketMetadataSys.StepKeepsCoherent: names, data and ciphertexts are shorter than 4 GiB, since longer ones do not survive the file format.
- Listing, erasure decoding and the healing of single objects: in HealingRun their outcomes are arbitrary, so which objects a resumed listing visits (it is forwarded to the bucket's own name) is not part of this model.
- HealSequenceMap.NeverOverlapping: speaks of map entries; what traverses is the subject of HealSequenceMap.TraversalsApartExactly.
- Case folding of prefixes on Windows, and path cleaning before a heal is launched.
- Retention headers and bucket defaults as parsed by the object-lock library; ObjectLock takes the parsed values.
- Versions deleted by replication (which carry an empty version ID to the guard) in ObjectLock.
- Signature and policy evaluation: permissions are arbitrary answers.
- `migrateConfigPrefixToEncrypted`, which does not try KMS decryption and so is not safe to rerun in the same way.
- `verifyServerSystemConfig`: retries and sleeps around `Diff`.
- Wrap-around of int64 offsets and result indices, which are unbounded here; the counters and the wire format do wrap.
- FIFO quota, data usage, erasure coding, the object layer's internals and the browser.
