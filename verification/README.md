# A verified model of lftp's transfer, routing and mirroring core

lftp is a file transfer program built of cooperating tasks. This Dafny project models the parts
of it in which a mistake silently corrupts data or state, and proves what they are for.

* **DHT routing table** (`DhtBits`, `DhtTable`, `DhtPolicy`, `DhtSearch`, `DhtState`, `Dht`).
  Buckets are kept as byte strings with a bit count and searched by a linear scan. They are proved
  to partition all 160-bit ids by the length of the prefix shared with our own id; every operation
  of the table, of the two node indexes and of the search keeps that, over every run. `DhtPolicy`
  says who is taken note of, who makes room and when a bucket is split. `Dht` holds the objects,
  with their lists, flags and maps changed in place, proved against the functions of the others.
  The protocol is BEP 5 ("Routing Table"), from which lftp differs by keeping candidates behind
  the stable nodes of a bucket.
* **Copy engine** (`CopyEngine`, `CopyEnd`, `CopyDone`, `CopyFaults`, `FileCopy`). FileCopy::Do
  joins a source peer to a destination peer, either of which may roll back at any time. No byte is
  put at a wrong offset and no gap is left, over every run, and when the destination has confirmed a copy it holds
  all of the source, except in four situations, each characterised exactly. `CopyDone` says when a
  copy fails at its end and proves that one whose peers carry on is completed. `FileCopy` holds the
  objects.
* **Ascii transfers** (`Ascii`). The in-place insertion of carriage returns and the write that
  strips them are inverse to each other for every split of the data and every partial write.
* **Path normalisation** (`PathOptimize`, `PathRelative`). The two-pointer rewrite of a path that
  starts with a slash or a tilde refines a stack of components, is idempotent and keeps where the
  path leads. For all other paths it is proved exactly when it does.
* **Bencoding** (`Bencode`, BEP 3). Parsing inverts packing; packing is prefix-free; the computed
  length is the packed length.
* **HTTP bodies** (`HttpBody`, `HttpProgress`). The incremental chunked decoder (section 4.1 of
  RFC 7230) follows the decoding of the whole wire whatever arrives when, reads stay contiguous over
  reconnects, and they come to the end of what has arrived.
* **Mirrors** (`MirrorCourse`, `Mirror`, `MirrorPlan`, `FileSet`). One counter shared by a tree of
  mirrors is exactly what they account for; each mirror starts all of its sets, in order, before it
  goes on; a plan is what it should be, name by name, and carried out it converges; all ways of
  merging file sets agree.
* **Job queue** (`Queue`). The doubly linked list of queued commands, rewired in place.

`Sequences` and `Lexical` hold what several modules share. Inputs that the program gets from the
outside (arrivals, readiness, timers, outcomes of system calls, randomness, listings) are
parameters, so that every theorem holds for all of them.

## What the proofs found

* A search never visits bucket 1 of the routing table unless it owns the target
  (`DhtSearch.SearchReaches`): at skew 1 the target's own bucket is found again, and from skew 2
  on bucket 0 matches wherever bucket 1 does.
* A line-buffered copy puts wrong bytes if both peers roll back by the same distance between two
  calls, because the check of positions cannot tell (`CopyFaults.LineCallIsRightIff` says exactly
  when, `CopyFaults.StaleLineRun` is such a run).
* A large Put whose direct write fails after some output appends its block at the end that the
  destination finds, and otherwise at the start, wherever it belonged
  (`CopyFaults.FailedStoreIsRightIff`, `CopyFaults.FailedStoreRun`).
* Between a failed store and the opening of a new session a destination says that it stands where the
  old one failed, and data put meanwhile goes to where the new one is opened
  (`CopyFaults.CallIsRightIff`, `CopyFaults.UnopenedRun`).
* A destination that seeks back to a source which fell back into what the destination still buffers
  drops that and leaves a gap (`CopyEngine.SeekPutKeepsInvIff`, `CopyFaults.LostBufferRun`).
* Path normalisation goes wrong on relative paths in three ways, and in no other
  (`PathRelative.RelativeIsRightIff`): "a/../b" becomes "/b", because a name that is gone leaves its
  slash behind; "./../a" becomes "a", because ".." is skipped after a leading "."; "./~a" becomes
  "~a", which means a home.

## How to check it

`dafny verify dfyconfig.toml` verifies the whole project (Dafny 4.11).

## Model

| member | source | states |
|---|---|---|
| DhtBits.MasksAreShifts | src/DHT.cc:1027-1033 | the byte masks of the model are the shifted masks the code builds |
| DhtBits.HighMaskIsBits | src/DHT.cc:1032 | equal bytes under the mask of the n high bits are bytes that agree on those n bits, and conversely |
| DhtBits.LowMaskIsBits | src/DHT.cc:178-179 | a byte is clear under the mask of its low bits exactly when each of those bits is clear |
| DhtBits.BytesAreBits | src/DHT.cc:1030 | comparing n bytes is comparing 8n bits |
| DhtBits.PrefixMatchIsAgree | src/DHT.cc:1021-1035 | a bucket matches an id, at any skew, exactly when they agree bit by bit on the prefix shortened by the skew |
| DhtTable.MatchIffOwner | src/DHT.cc:857-867 | in every table of the layout that splitting builds, a bucket matches an id if and only if it is the one bucket determined by the length of the prefix the id shares with our own: the buckets partition all ids |
| DhtTable.FindRouteIsOwner | src/DHT.cc:857-867 | the linear scan finds k-1-cpl, or 0 when the common prefix is at least k-1 bits, for k buckets |
| DhtTable.FindRouteSkewed | src/DHT.cc:857-867 | at skew s > 0 the scan finds the bucket s-1 places nearer to bucket 0 than the owner, or bucket 0 where that would be bucket 1 or nearer |
| DhtTable.HalfPrefix | src/DHT.cc:958-966 | each half of bucket 0 has our own prefix with the new bit set or cleared and all unused bits zero |
| DhtTable.SplitKeepsLayout | src/DHT.cc:951-991 | a split keeps the layout, bucket 0 still matches our own id (the assertion at 989), and prefixes only grow towards 160 bits |
| DhtTable.SplitKeepsWf | src/DHT.cc:951-991 | a split keeps every node in the one bucket that owns it, loses none and adds none |
| DhtTable.FullBucketHasABit | src/DHT.cc:955 | a full bucket 0 always has a bit left to split on, since at most two ids share 159 bits with ours |
| DhtTable.AtMostTwoAtLastBit | src/DHT.cc:955 | of three ids that share 159 bits with ours two are equal |
| DhtTable.MakeRoomEvicts | src/DHT.cc:904-931 | making room only throws out nodes that are bad or never responded, never more than needed, and nothing from a bucket with a free place |
| DhtTable.FullIffCandidatesSuffice | src/DHT.cc:936-939 | the limited count of questionable nodes still decides correctly whether there are as many candidates as questionable stable nodes |
| DhtTable.RefreshedIsPermutation | src/DHT.cc:891-899 | seeing a stable node again only permutes the first K nodes and puts it last among them |
| DhtTable.AddRouteTurn | src/DHT.cc:875-950 | one turn of the retry loop keeps the table well formed, its asserted facts hold, and a retry leaves fewer splits to do, so the loop ends |
| DhtTable.AddRouteRouted | src/DHT.cc:875-950 | adding a node routes no other node, and unroutes only nodes that are bad or never responded |
| DhtTable.AddRouteRefuses | src/DHT.cc:936-957 | a node is turned away only by a full bucket with at least as many candidates as stable nodes that are not good, and by bucket 0 only if it may not be split: the bucket behind it has no good node and the state file is not being read |
| DhtTable.AddRoute | src/DHT.cc:875-950 | the outcome is well formed: at most 2K distinct nodes a bucket, each in the bucket that owns its id |
| DhtTable.RemoveRouteRemoves | src/DHT.cc:868-874 | searching the one bucket that matches its id removes a node from the whole table, and no other node |
| DhtTable.EvictionRouted | src/DHT.cc:1015-1020 | dropping one place of one bucket unroutes exactly the node that was there |
| DhtTable.TrimCandidatesKeepsWf | src/DHT.cc:138-145 | trimming surplus candidates keeps the table well formed and routes nothing new |
| DhtTable.RefreshIdInBucket | src/DHT.cc:173-183 | an id generated to refresh a bucket is found in that very bucket, whatever the random bytes |
| DhtTable.RefreshMaskIsClear | src/DHT.cc:179 | the assertion that unused bits of the prefix are clear holds |
| DhtPolicy.MakeRoomMeans | src/DHT.cc:904-931 | room is made in a full bucket only and one place at most is left free: one bad node goes if there is one, and away from bucket 0, while the bucket is still full, one that never responded, for a newcomer that has, and one that never responded and is not good |
| DhtPolicy.AddRouteSplits | src/DHT.cc:941-957 | adding a node splits only if it belongs in bucket 0 and that is full, and splits again only if the bucket just split off has a good node or the state file is being read; all other buckets stay as they are |
| DhtPolicy.TrimMeans | src/DHT.cc:138-145 | trimming takes the first candidate from a bucket other than bucket 0, and nothing else, exactly if there are more candidates than stable nodes that are not good |
| DhtPolicy.AddRouteStays | src/DHT.cc:883-900 | a node that is in its bucket stays in the table when it is added again |
| DhtPolicy.FoundNodeMeans | src/DHT.cc:741-798 | on the indexes: exactly who is taken note of (usable, not ourselves, and known, or at a new address, or answering with its first new id); that node is then filed under its id and address with exactly what was heard of it, every other entry stays, and it is routed unless its bucket may refuse it; on a second new id exactly that node is forgotten; otherwise nothing changes |
| DhtSearch.SkewedOwnerDescends | src/DHT.cc:1049-1052 | as the skew grows the bucket searched never moves away from bucket 0 |
| DhtSearch.SearchReaches | src/DHT.cc:1046-1064 | exactly which routed nodes a search can reach: those of the owner of the target and of the buckets nearer to 0, but those of bucket 1 only if it owns the target |
| DhtSearch.VisitedAreCloser | src/DHT.cc:1046-1064 | every node visited is strictly closer to the target than every node of a bucket farther out, and the owner bucket is closest of all |
| DhtSearch.EligibleIff | src/DHT.cc:1055-1057 | a node is eligible exactly if it is known and not excluded, has lost fewer than two pings and changed its id fewer than twice, and is good where only good ones are asked for |
| DhtSearch.FindNodesSound | src/DHT.cc:1046-1064 | the nodes returned are distinct, routed and eligible, at most max_count (at least one place is given), and it stops short only when nothing eligible is left to visit |
| DhtSearch.SearchLoopFinds | src/DHT.cc:1046-1064 | the loop over all 160 skews, with its repeated scans and its search for duplicates, is the first max_count eligible nodes in order of visiting |
| DhtState.RemoveNodeForgets | src/DHT.cc:799-810 | a removed node is in no bucket and in neither index, and the other nodes keep their places |
| DhtState.AddNodeKeepsInv | src/DHT.cc:843-856 | adding a node under a new id and a new address keeps both indexes and the table in step |
| DhtState.ChangeNodeIdKeepsInv | src/DHT.cc:811-828 | a node that changes its id is filed under the new id only and is in the bucket for it, if in any |
| DhtState.FoundNodeKeepsInv | src/DHT.cc:741-798 | every path through FoundNode keeps the invariant |
| DhtState.ApplyKeepsInv | src/DHT.cc:741-887 | so does every step: messages, removals, expiry, lost pings, trimming, state file |
| DhtState.EveryRun | src/DHT.cc:741-1020 | after any sequence of steps both indexes list the same nodes under their own id and address, every routed node is indexed and is once in the one bucket that owns it, and no bucket has more than 2K nodes |
| Dht.RouteBucket.RandomId | src/DHT.cc:173-184 | computes the refresh id of the table model, in place |
| Dht.RouteBucket.RemoveNodeAt | src/DHT.cc:1015-1020 | removes the node at a place and clears its flag |
| Dht.DHT.FindRoute | src/DHT.cc:857-867 | the loop finds what FindRoute of the table model says |
| Dht.DHT.EvictAt | src/DHT.cc:1015-1020 | removes one node of one bucket; the flags, the indexes and the other buckets stay in step |
| Dht.DHT.MakeRoom | src/DHT.cc:904-931 | the three eviction loops compute MakeRoom |
| Dht.DHT.PingQuestionable | src/DHT.cc:992-1005 | counts what Questionable counts |
| Dht.DHT.Distribute | src/DHT.cc:970-975 | shares the nodes out by the new bit, in order |
| Dht.DHT.SplitRoute0 | src/DHT.cc:951-991 | splits in place exactly as the table model does, or changes nothing |
| Dht.DHT.Refresh | src/DHT.cc:886-899 | moves a stable node to the end of the stable ones |
| Dht.DHT.Admit | src/DHT.cc:932-950 | takes the newcomer in, refuses it, or asks for another try, as the model does |
| Dht.DHT.AddRoute | src/DHT.cc:875-950 | the retry loop over objects ends and computes AddRoute of the table model; flags of the nodes say who is routed |
| Dht.DHT.RemoveRoute | src/DHT.cc:868-874 | removes a node by searching one bucket |
| Dht.DHT.RemoveNode | src/DHT.cc:807-809 | removes a node from the table and both indexes |
| Dht.DHT.AddNode | src/DHT.cc:843-851 | files a new node under its id and address and routes it |
| Dht.DHT.ChangeNodeId | src/DHT.cc:811-828 | refiles a node under a new id |
| Dht.DHT.Seen | src/DHT.cc:783-791 | notes that a node answered |
| Dht.DHT.FoundNode | src/DHT.cc:741-798 | computes FoundNode of the state model on the objects, and returns a node, the one now filed under the id, exactly if it is taken note of |
| Dht.DHT.LostPing | src/DHT.h:55 | counts a lost ping; nothing else changes |
| Dht.DHT.Expire | src/DHT.h:52 | a node that is silent too long is no longer good; nothing else changes |
| Dht.DHT.FindNodes | src/DHT.cc:1046-1064 | the loops compute FindNodes of the search model |
| Dht.DHT.TrimCandidates | src/DHT.cc:138-145 | trims the surplus candidates of every bucket but 0 as the model does |
| Dht.DHT.RefreshId | src/DHT.cc:173-184 | makes an id that FindRoute finds in the bucket to be refreshed |
| CopyEngine.PutKeepsInv | src/buffer.cc:454-471 | data that belongs where the destination goes on is put there and nowhere else, whatever part of it a direct write takes |
| CopyEngine.PassLinesKeepsInv | src/FileCopy.cc:317-328 | whole lines are passed on and the rest held back without losing or misplacing a byte |
| CopyEngine.ThroughLineKeepsInv | src/FileCopy.cc:303-329 | the same for data taken through the line buffer, with or without overflow |
| CopyEngine.SeekGetKeepsInv | src/FileCopy.cc:1662-1706 | a source peer that seeks anywhere, or refuses to, still buffers only what the source has at its position |
| CopyEngine.SeekPutKeepsInvIff | src/FileCopy.cc:765-773 | a destination that seeks back to the source leaves no gap if and only if it does not lose some of what it still buffers |
| CopyEngine.RealignKeepsInvIff | src/FileCopy.cc:222-272 | bringing the peers together keeps everything right if and only if the destination does not seek back into what it still buffers |
| CopyEngine.CopyStepKeepsInvIff | src/FileCopy.cc:158-366 | so does one pass of DO_COPY, when no direct write moves the destination, it goes on where it says it is and the line buffer is in place |
| CopyEngine.AwaitPutKeepsInv | src/FileCopy.cc:135-157 | waiting for the position of the destination, with nothing put yet, keeps every byte at its place |
| CopyEngine.DoKeepsInvIff | src/FileCopy.cc:74-438 | and one call of Do in any phase |
| CopyEngine.DoKeepsEarly | src/FileCopy.cc:74-157 | nothing is held back before copying begins |
| CopyEngine.MovedKeepsInv | src/FileCopy.cc:765-773 | peers that fall back, or find an existing file, between two calls leave everything right: what lies beyond the place of the destination is no longer counted as held |
| CopyEngine.RunKeepsInv | src/FileCopy.cc:74-438 | the invariant holds in every run of honest peers, which may roll back or seek at any time between calls, in which none of the four disturbances comes about |
| CopyEngine.EveryCopyIsExact | src/FileCopy.cc:74-438 | in every such run, from a fresh copy, what the destination now holds or buffers at an offset is the byte of the source there; it has no gap from its lowest position to its place, and nothing beyond, although whatever it fell back from was dropped |
| CopyEnd.BeginLow | src/FileCopy.cc:119-129 | a copy that does not continue an old file covers from the start of its range |
| CopyEnd.LowNeverRises | src/FileCopy.cc:158-366 | what the destination covers it goes on covering from where the copy began, however often anybody rolls back |
| CopyEnd.CopyStepReached | src/FileCopy.cc:355-366 | a call that ends copying does so with the end of the range or the known size reached at the put position, or with nothing put |
| CopyEnd.WholeCopyArrives | src/FileCopy.cc:74-438 | over a whole such run whose source has a known size: the end is accepted only at the limit, and once the destination has confirmed it, however often anybody rolled back before, it holds the source, byte for byte and without a gap, from where the copy began to where it ended, nothing beyond, and has written all of it unless its reader is gone |
| CopyDone.SizeOkIff | src/FileCopy.cc:690-709 | the check of the size fails exactly if a limit is known and the peer that got farther is past the start and short of that limit |
| CopyDone.ConfirmMeans | src/FileCopy.cc:380-397 | while the end waits to be confirmed the copy fails exactly if the destination has, copies on if the destination has moved, and ends only when it has stored everything |
| CopyDone.AtEofMeans | src/FileCopy.cc:355-366 | at the end of the data, with the positions in step, the copy fails exactly if it is short or the destination fails, and otherwise puts all that was held back and waits for the end to be confirmed |
| CopyDone.CopyingCallMeans | src/FileCopy.cc:273-366 | a call that copies takes all the data in hand within the range, puts it or holds it back, and copies on; at the end, as above |
| CopyDone.RealigningCallMeans | src/FileCopy.cc:222-272 | a call that finds the positions differing brings the peers to one place, or nearer by all the data in hand, or ends the copy if the destination has all of the known size; it fails only if the source is ahead and cannot seek, or at an end that is short |
| CopyDone.AwaitingCallMeans | src/FileCopy.cc:135-157 | while the position of the destination is waited for, one that has all of the known size ends the copy, and one that is ready is copied to from its position |
| CopyDone.FirstCallMeans | src/FileCopy.cc:119-134 | the first call copies from the start of the range, or has a destination that continues an old file look for its end |
| CopyDone.CopyCompletes | src/FileCopy.cc:74-438 | a copy on its way whose peers carry on is done, without failure, once the source has brought all it promised and the destination, two turns later or more, has stored it |
| CopyDone.WholeCopyCompletes | src/FileCopy.cc:74-438 | an undisturbed fresh copy of known size whose peers carry on is done, has not failed, and the destination holds all of the source from where the copy began |
| CopyFaults.CallPuts | src/FileCopy.cc:273-366 | exactly what a call that copies puts, whatever its direct writes do: up to three pieces, of what overflows the line buffer, of whole lines, and of the rest at the end, each where the destination goes on by then |
| CopyFaults.CallIsRightIff | src/FileCopy.cc:158-366 | exactly when a call is right for every source that the state can be copying, with or without a line buffer and for every outcome of its three direct writes: it does not copy, or each byte it puts is known, from what is held, held back and buffered, to belong where it goes |
| CopyFaults.LineCallIsRightIff | src/FileCopy.cc:216-230 | if no direct write moves the destination: it does not copy, or the bytes it passes on out of the line buffer are known to belong at the put position |
| CopyFaults.UnbufferedCallIsRightIff | src/buffer.cc:454-471 | without a line buffer: it does not copy, or the block in hand is known to belong where the destination goes on after the direct write |
| CopyFaults.FailedStoreIsRightIff | src/FileCopy.cc:1304-1315 | when the store fails: after some output, if the destination can seek, exactly if the block is known to belong at the end the destination finds, at once or later; otherwise exactly if it belongs at the start |
| CopyFaults.FlushIsRightIff | src/FileCopy.cc:355-361 | writing out the line buffer, whatever the direct write does: exactly if it is known to belong where the destination goes on |
| CopyFaults.PutIsRightIff | src/buffer.cc:454-471 | for one source: a Put is right exactly if its bytes belong where the destination goes on after the direct write |
| CopyFaults.PlaceOfPut | src/FileCopy.cc:1284-1321 | which is its place; or where the session was found; or after a failed store the end it finds, or the start |
| CopyFaults.BelongIff | src/FileCopy.cc:216-230 | bytes belong where they are for every source that a state can be copying exactly if the state knows that they do; for any other bytes there is a source that meets the invariant and has something else there |
| CopyFaults.InPlaceIsKnown | src/FileCopy.cc:216-230 | a line buffer whose place is that of the destination is known to belong there, so the position condition of the invariant is a case of the exact one |
| CopyFaults.DisplacedLineGoesWrong | src/FileCopy.cc:216-230 | whatever the place of a held-back line, its length and the place it is put at instead, there is a source and a copy of it that meets the invariant and goes wrong |
| CopyFaults.DisplacedBlockGoesWrong | src/FileCopy.cc:1331-1346 | whatever the place of a block, its length and where the session is found instead, there is a source and a copy of it that meets the invariant and goes wrong |
| CopyFaults.ShortEndGoesWrong | src/FileCopy.cc:1304-1315 | whatever the place of a block after some output, its length and the end found instead, at once or later, there is a source and a copy of it that meets the invariant and goes wrong |
| CopyFaults.PutIsStillBuffered | src/buffer.cc:454-471 | whatever its direct write does, a destination goes on buffering just what it was given, so it is honest when it is opened where it goes on |
| CopyFaults.StaleLineRun | src/FileCopy.cc:216-230 | a run of two turns from a fresh line-buffered copy, with honest peers, that puts a wrong byte: both peers fall back by one byte while one is held back |
| CopyFaults.FailedStoreRun | src/FileCopy.cc:1304-1315 | a run of two turns from a fresh copy, with honest peers, that puts wrong bytes: the store fails after one byte, and the block in hand is appended where the destination goes on, whether that is the end it finds, at once or later, or the start |
| CopyFaults.UnopenedRun | src/FileCopy.cc:1118-1137 | a run of two turns from a fresh copy, with honest peers and no direct write, that puts a wrong byte: the store failed between the calls and the end is known, but the position still says where that was |
| CopyFaults.LostBufferRun | src/FileCopy.cc:267-271 | a run of two turns from a fresh copy, with honest peers and no direct write, that leaves a gap: the source falls back into what the destination still buffers, and the destination seeks there |
| FileCopy.FileCopyPeer.Put | src/buffer.cc:454-471 | unless a direct write moves the peer, the bytes go to its place, which moves by their number, and whatever source they and the buffer are bytes of, what is buffered afterwards are bytes of it at their place |
| FileCopy.FileCopy.PutData | src/buffer.cc:454-471 | unless a direct write moves the destination, putting bytes that a source has where the destination goes on keeps the invariant for that source |
| FileCopy.FileCopy.CheckFileSizeAtEOF | src/FileCopy.cc:690-709 | the check fails exactly if the peer that got farther is short of a known limit; when it succeeds and the source is not ahead of the destination, the put position has reached every limit the source peer may have, the size it forgot included, or nothing was put |
| FileCopy.FileCopy.Eof | src/FileCopy.cc:355-366 | the eof path keeps the invariant for every source if the line buffer is in its place; with the positions in step it fails exactly if the copy is short or the destination fails, and ends with everything put otherwise |
| FileCopy.FileCopy.ConfirmStep | src/FileCopy.cc:380-397 | the put side is left only when the destination is done, without error, at the position at which the end was accepted; it is then left, and the copy fails exactly if the destination has |
| FileCopy.FileCopy.LastNewline | src/FileCopy.cc:317-323 | finds the last newline |
| FileCopy.FileCopy.CopyThroughLine | src/FileCopy.cc:303-329 | taking data through the line buffer keeps every byte at its place, for every source |
| FileCopy.FileCopy.CopyStraight | src/FileCopy.cc:330-347 | so does taking it without one |
| FileCopy.FileCopy.CopyAvailable | src/FileCopy.cc:273-353 | so does copying what is available, within the range, with the end of the file or of the range if it is reached |
| FileCopy.FileCopy.RealignStep | src/FileCopy.cc:222-272 | bringing the peers together keeps the invariant for every source, wherever they stand, unless the destination is to seek back into what it still buffers |
| FileCopy.FileCopy.CopyingStep | src/FileCopy.cc:158-366 | DO_COPY with its checks keeps the invariant for every source, if undisturbed |
| FileCopy.FileCopy.AwaitPutStep | src/FileCopy.cc:135-157 | PUT_WAIT, with nothing put yet, keeps the invariant for every source |
| FileCopy.FileCopy.BeginStep | src/FileCopy.cc:119-157 | so does INITIAL, from the first seeks to the first data copied |
| FileCopy.FileCopy.Do | src/FileCopy.cc:74-438 | one call on the objects is one step of CopyEngine, keeps its invariant for every source, and takes, puts, realigns, ends, fails and confirms exactly when CopyDone says |
| Ascii.StripExpand | src/FileCopy.cc:1756-1770 | stripping what was expanded gives back any byte sequence, also one with CR LF in it or a CR at its end |
| Ascii.ExpandLength | src/FileCopy.cc:1739 | the expansion is at most twice as long, so the reserved space is enough |
| Ascii.PutLLStrips | src/FileCopy.cc:1779-1878 | whatever part a low-level write uses up, it puts into the file exactly what stripping owes for it, whatever follows |
| Ascii.PutLLProgresses | src/FileCopy.cc:1790-1817 | a write makes progress exactly unless only a carriage return is waiting for what follows |
| Ascii.PutLLInFull | src/FileCopy.cc:1779-1878 | a write taken in full writes up to the first line end and its line feed alone, or everything but a carriage return that may begin a line end |
| Ascii.WrittenIsPrefix | src/FileCopy.cc:1756-1878 | at any time, for any split into reads and puts and any outcome of writes, the file is a prefix of the original text |
| Ascii.AsciiRoundTrip | src/FileCopy.cc:1756-1878 | once all is given and drained the file is the original text |
| Ascii.AsciiCompletes | src/FileCopy.cc:1756-1878 | and it comes to that: if no write fails, as many drains as bytes are still buffered, each with something written, leave the file as the original text |
| Ascii.ExpandAt | src/FileCopy.cc:1761-1767 | the body of the loop, in place |
| Ascii.InsertCarriageReturns | src/FileCopy.cc:1756-1770 | the in-place loop with memmove makes the expansion of what was read, at most twice as long |
| Ascii.FDStream.FindLineEnd | src/FileCopy.cc:1790-1817 | the scan finds where the line ends |
| Ascii.FDStream.Put_LL | src/FileCopy.cc:1779-1878 | computes one low-level write |
| Ascii.FDStream.DrainSome | src/FileCopy.cc:1633-1635 | after draining, with any outcome of the write, file and buffer together still owe the text exactly what is yet to be given |
| Ascii.FDStream.PutData | src/buffer.cc:454-471 | the same after a Put, for what is given after it |
| PathOptimize.FollowKeeps | src/FileAccess.cc:428-521 | only a start that is not a root keeps "..", and only directly after its prefix |
| PathOptimize.UpIsEnter | src/FileAccess.cc:490-509 | meeting ".." does to the text written so far what it does to a stack of components |
| PathOptimize.WalkFollows | src/FileAccess.cc:472-519 | the second loop computes the component stack, with the final slash kept |
| PathOptimize.WalkAfterSkip | src/FileAccess.cc:461-470 | so it does after the first loop has skipped leading components |
| PathOptimize.OptimizedIsNormal | src/FileAccess.cc:428-521 | for every path that starts with a slash or a tilde both loops give the normal form of the component stack, final slash included |
| PathOptimize.NormalTwice | src/FileAccess.cc:428-521 | the normal form of a normal form is itself |
| PathOptimize.OptimizedTwice | src/FileAccess.cc:428-521 | what both loops made of a path that starts with a slash or a tilde they leave as it is |
| PathOptimize.CleanedLeadsThere | src/FileAccess.cc:428-521 | the normal form leads to the same directory as the path, from the root or from any home |
| PathOptimize.PrefixSize | src/FileAccess.cc:430-454 | finds the length of the prefix |
| PathOptimize.SkipLeading | src/FileAccess.cc:461-470 | the first loop |
| PathOptimize.GoUp | src/FileAccess.cc:490-509 | writes ".." or steps back over a component, in place |
| PathOptimize.Advance | src/FileAccess.cc:472-519 | one turn of the second loop |
| PathOptimize.Optimize | src/FileAccess.cc:428-521 | the two-pointer rewrite of one buffer: the output pointer never passes the input pointer, and the result is the normal form |
| PathRelative.WalkSteps | src/FileAccess.cc:472-519 | without a prefix the second loop computes the component stack too, but besides keeps a slash before it that a name leaves when it is put on an emptied stack |
| PathRelative.LedIff | src/FileAccess.cc:490-517 | exactly when that slash is there at the end |
| PathRelative.SkipRun | src/FileAccess.cc:461-470 | the first loop skips exactly the run of empty, "." and ".." components that begins with "." |
| PathRelative.SomethingKept | src/FileAccess.cc:428-521 | what both loops make of any relative path of which a name or ".." is not skipped |
| PathRelative.RelativeIsRightIff | src/FileAccess.cc:428-521 | for every path that starts with neither a slash nor a tilde, the result is again such a path and leads from every directory to where the path leads if and only if no ".." is skipped after a leading "." and what is left either begins with "..", or begins with the first of the other components, which never was gone and does not bring a tilde to the front, or is nothing, with no slash after it |
| PathRelative.GoneNameLeavesItsSlash | src/FileAccess.cc:490-517 | "a/../b" goes wrong: it becomes absolute |
| PathRelative.DotsAfterDotAreLost | src/FileAccess.cc:461-470 | "./../a" goes wrong: its ".." is lost |
| PathRelative.TildeGetsToTheFront | src/FileAccess.cc:461-470 | "./~a" goes wrong: its tilde comes to mean a home |
| Bencode.SortedIsTheOne | src/Bencode.cc:365-374 | there is only one ascending order of distinct keys, so the hash order does not show |
| Bencode.DigitsReadBack | src/Bencode.cc:70-80 | reading printed digits gives back the number, without a leading zero |
| Bencode.ParsePackStr | src/Bencode.cc:156-184 | a packed string is parsed back, leaving the rest |
| Bencode.ParsePackInt | src/Bencode.cc:56-91 | so is every integer of absolute value below 2^63 |
| Bencode.ParsePack | src/Bencode.cc:48-185 | so is every nested value: parsing what was packed, followed by anything, gives the value and leaves exactly what followed |
| Bencode.ParsePackAll | src/Bencode.cc:92-115 | the loop over a list reads back all items |
| Bencode.ParsePackEntries | src/Bencode.cc:116-155 | the loop over a dictionary reads back all entries |
| Bencode.PackIsPrefixFree | src/Bencode.cc:48-185 | no packed value begins another, and different values pack differently |
| Bencode.LengthInAnyOrder | src/Bencode.cc:339-354 | one more entry adds its own length, wherever it is packed |
| Bencode.ParseNumber | src/Bencode.cc:56-91 | the loop computes ParseInt |
| Bencode.ParseString | src/Bencode.cc:156-184 | the loop computes ParseStr |
| Bencode.Parse | src/Bencode.cc:48-185 | the recursive parser over a moving cursor computes ParseNode |
| Bencode.SortedKeys | src/Bencode.cc:371-374 | the keys, taken in any order, are sorted |
| Bencode.PackInto | src/Bencode.cc:383-408 | appends the packed value to the buffer |
| Bencode.PackDict | src/Bencode.cc:365-382 | appends the entries in order of their keys |
| Bencode.ComputeLength | src/Bencode.cc:315-357 | the length summed in any order of the entries is the length of what is packed |
| HttpBody.SizeIsScanned | src/Http.cc:2135-2136 | the scan finds the number that the digits of a size line stand for place by place, in either case, after any zeros and before any extension |
| HttpBody.PrintedNumber | src/Http.cc:2135-2136 | the hexadecimal digits printed for a number stand for it |
| HttpBody.PrintedSize | src/Http.cc:2135-2136 | a printed size with nothing, an extension or white space after it is a size line for that size |
| HttpBody.DecodeEncode | src/Http.cc:2117-2169 | decoding a chunked body (section 4.1 of RFC 7230) gives back exactly the body, whatever the division into chunks and whatever extensions their size lines have, and leaves the trailer |
| HttpBody.PrintedDecodes | src/Http.cc:2117-2169 | in particular a body sent in any pieces with their sizes printed |
| HttpBody.DecodeSplit | src/Http.cc:2166-2169 | taking part of the data of a chunk first changes nothing |
| HttpBody.DecodeCutShort | src/Http.cc:2090-2100 | a wire that is cut short decodes to a beginning of what it would have carried |
| HttpBody.Read0Decodes | src/Http.cc:2075-2218 | however the wire arrives and whatever is asked for, each return of _Read agrees with the decoding of the whole wire: the next bytes at the wanted position, format errors only if the wire has one, disconnect only if it ends early, trailer only after the whole body, and nothing that arrived is held back |
| HttpBody.ReadsAreContiguous | src/Http.cc:2034-2218 | over any number of disconnects and new requests whose bodies begin at or before the wanted position, all that Read returned is one contiguous piece of the entity |
| HttpBody.ChunkedBodyIsExact | src/Http.cc:2117-2169 | a well-formed body is never taken for malformed, and when the trailer is entered as many bytes have been received as it has |
| HttpBody.EncodedBodyIsExact | src/Http.cc:2117-2169 | the same from the first byte of an encoded response; and when its trailer is entered Read has handed out exactly the body from the wanted position on |
| HttpBody.Http.Pass | src/Http.cc:2080-2218 | one pass of the loop is one unfolding of the model |
| HttpBody.Http.ReadBody | src/Http.cc:2075-2218 | the loop ends and computes Read0 |
| HttpBody.Http.ReadSome | src/Http.cc:2034-2057 | Read itself, moving the wanted position |
| HttpProgress.Read0HandsOut | src/Http.cc:2080-2218 | when the wanted byte is the next, one return of _Read hands out as many bytes as asked for, allowed in one pass, and arrived of the same chunk or of the known size |
| HttpProgress.ReadHandsOut | src/Http.cc:2034-2218 | so does Read for the wanted byte wherever it stands, as soon as it has arrived, past whatever is to be skipped and however many chunks come before |
| HttpProgress.Read0Finishes | src/Http.cc:2117-2169 | once all that is left has arrived, _Read hands out some of it, or enters the trailer if none of it is wanted |
| HttpProgress.ReadsToTheEnd | src/Http.cc:2034-2218 | one read for each byte wanted and one more enter the trailer of a chunked body that has arrived, with all that was wanted handed out |
| HttpProgress.EncodedBodyArrives | src/Http.cc:2034-2218 | a whole encoded response that has arrived is read to its trailer, and what was handed out is exactly the body from the wanted position on |
| HttpProgress.PlainRead | src/Http.cc:2185-2218 | of a body of known size that has arrived each read hands out as much as is asked for and allowed |
| HttpProgress.PlainReadsToTheEnd | src/Http.cc:2185-2218 | one read for each byte hands out all of it, and only the next one says that this is the end |
| MirrorCourse.CourseIsWorked | src/MirrorJob.cc:865-1439 | in every history that can be, each phase was given what the call entering it found, follows the phase before as in Do, and was left only with all entries of its set started, in order, and nothing running where that matters, unless too many errors stopped it; and of the phase that is on, what was started and what is left make up the set |
| MirrorCourse.FinishedMeans | src/MirrorJob.cc:980-1439 | a mirror comes to its last phase only after starting every entry of the transfers it was given and waiting for them, and every removal, change of mode and removal of what is the same that was asked for, unless a directory or a list was bad, it was only to be scanned, or too many errors stopped it; and to its transfers only after removing all that is in the way and making all directories, or when directories go first |
| Mirror.RootLeavesNothing | src/MirrorJob.cc:1308-1346 | when the root waits for nobody no job and no mirror below it is left, and the counter is down to nothing |
| Mirror.MirrorTree.JobStarted | src/MirrorJob.cc:209-213 | one more job is counted; a transfer is started only below the limit |
| Mirror.MirrorTree.JobFinished | src/MirrorJob.cc:237-245 | the counter is positive when a job is taken off (the assertion at 243) |
| Mirror.MirrorTree.SubFinished | src/MirrorJob.cc:237-245 | the same for a mirror of a subdirectory |
| Mirror.MirrorTree.Launch | src/MirrorJob.cc:1490-1525 | a new mirror inherits the flags of its parent and holds its weight from its construction |
| Mirror.MirrorTree.EndListing | src/MirrorJob.cc:704-710 | the counter covers the weight when it is taken off (the assertion at 708), in every place where that happens |
| Mirror.MirrorTree.ListAgain | src/MirrorJob.cc:1112-1128 | the weight is taken again after directories went first, by the root or by a submirror, and they are not gone into a second time |
| Mirror.MirrorTree.EndMirror | src/MirrorJob.cc:1346-1361 | a finished mirror holds one until its parent takes note |
| Mirror.MirrorTree.Reap | src/MirrorJob.cc:1309-1313 | the loop removes all that has ended |
| Mirror.MirrorTree.SetPhase | src/MirrorJob.cc:865-1439 | a phase is entered only from one that may be left for it, with the set that the call found for it, and the history says so |
| Mirror.MirrorTree.HandleEntry | src/MirrorJob.cc:1104-1134 | exactly the first entry of the set leaves it, and for it one job of its kind is begun, or one mirror, or none, and counted |
| Mirror.MirrorTree.WorkOff | src/MirrorJob.cc:1104-1134 | the guarded loop starts entries from the front of the set, each only while the counter with the weight of those before it is below the limit, and stops below the limit only when nothing is left to start; their jobs are waited for, their mirrors launched, and the history lists them |
| Mirror.MirrorTree.Finish | src/MirrorJob.cc:1308-1361 | the last phase is left only when no job and no submirror is waited for any more |
| Mirror.MirrorTree.Do | src/MirrorJob.cc:853-1439 | after any call the counter is what running jobs, listing mirrors and unnoticed finished mirrors account for, and no more transfers are in flight than allowed; no mirror has left a phase before all of its set was started, in order, unless stopped, nor come to its end with something undone; and the call stops only where nothing more can be done now |
| Mirror.MirrorTree.Run | src/MirrorJob.cc:853-1439 | the same after any interleaving over the whole tree; and when the root has ended nothing else is left |
| FileSet.SortedIsUnique | src/FileSet.cc:131-135 | a sorted array is determined by its entries |
| FileSet.FileSet.FindGEIndByName | src/FileSet.cc:623-649 | the bisection finds the first name at or after the one sought |
| FileSet.FileSet.FindByName | src/FileSet.cc:651-659 | finds the entry of that name exactly if there is one |
| FileSet.FileSet.Add | src/FileSet.cc:95-115 | adds or merges, keeping the order |
| FileSet.FileSet.MergeInsert | src/FileSet.cc:137-150 | merging one by one gives the union |
| FileSet.FileSet.MergeLinear | src/FileSet.cc:164-195 | so does the linear merge |
| FileSet.FileSet.Merge | src/FileSet.cc:151-196 | so it is whichever way the estimate selects |
| FileSet.MergesAgree | src/FileSet.cc:95-196 | all ways of merging give equal arrays |
| FileSet.FileSet.Sub | src/FileSet.cc:117-123 | removes one entry and keeps the cursor on its entry |
| FileSet.FileSet.SubtractIf | src/FileSet.cc:367-397 | the loop that edits the array in place keeps exactly the entries that do not meet the condition, in order |
| MirrorPlan.SameAsItself | src/FileSet.cc:533-568 | a file is the same as itself exactly if it is not a directory |
| MirrorPlan.SameAsIff | src/FileSet.cc:533-568 | a file will do for another exactly if names, types, and link targets or dates and sizes, as far as both are known, agree within what is ignored, and neither is a directory |
| MirrorPlan.SameAsEitherWay | src/FileSet.cc:533-568 | which of the two is which matters only where an older one will do, and ignoring more makes no two files differ |
| MirrorPlan.InitSets | src/MirrorJob.cc:581-653 | the sets made in place are the plan, also when everything is transferred anyway and whatever is filtered out |
| MirrorPlan.SameAndTransferPartition | src/MirrorJob.cc:594-609 | what is the same and what is different divide the source between them |
| MirrorPlan.RemovedIsNotTransferred | src/MirrorJob.cc:587-653 | what is to be removed shares no name with what is to be transferred or to make room |
| MirrorPlan.DifferentMeans | src/MirrorJob.cc:594-609 | what is different is, name by name, exactly what the source has and nothing at the target will do for, or everything if all is transferred |
| MirrorPlan.TransferMeans | src/MirrorJob.cc:594-653 | all four sets, name by name and in both directions: to be removed is what only the target has; the same is what will do; in the way are directories of the target where a file not known to be one is wanted; to be transferred is what differs and is not filtered out, unless a directory is in the way that may not be deleted |
| MirrorPlan.PlanConverges | src/MirrorJob.cc:581-653 | once a plan has been carried out, planning again finds only directories to go through, and with deletion nothing to remove |
| MirrorPlan.PlanOfAllConverges | src/MirrorJob.cc:594-653 | if everything is transferred anyway, planning again finds nothing to remove and the same to transfer |
| Queue.MovingKeepsAll | src/QueueFeeder.cc:219-234 | moving matching jobs loses and duplicates nothing and keeps the order among matching and among other jobs |
| Queue.InsertJobs | src/QueueFeeder.cc:300-328 | a list put before a node, or at the end, gives one list well linked in both directions, at both ends too |
| Queue.QueueFeeder.UnlinkJob | src/QueueFeeder.cc:236-247 | a job taken out leaves a well-linked list and stands alone |
| Queue.QueueFeeder.GetJob | src/QueueFeeder.cc:249-260 | finds the job of a number |
| Queue.QueueFeeder.GrabJob | src/QueueFeeder.cc:262-270 | takes the job of a number out |
| Queue.QueueFeeder.GrabMatching | src/QueueFeeder.cc:272-287 | takes all matching jobs out, in order, as a list of their own |
| Queue.MovedStandBefore | src/QueueFeeder.cc:219-234 | moved jobs stand together, after exactly the other jobs that were before the first one, from the job named on, that does not match, and right before that one; or at the end, if there is none or none is named |
| Queue.QueueFeeder.MoveMatching | src/QueueFeeder.cc:219-234 | all matching jobs, in order, stand before the first non-matching job at or after the target, or at the end, and nothing else moves |
| Queue.QueueFeeder.MoveOne | src/QueueFeeder.cc:202-217 | moves one job before the job the target names, or to the end |
| Queue.MovedOneKeepsOthers | src/QueueFeeder.cc:202-217 | and leaves the rest as it was |
| Queue.QueueFeeder.QueueCmd | src/QueueFeeder.cc:56-69 | adds a new job before the one at a position, or at the end |

## Left out

- Dht: pings, messages, searches and their timers; tokens, peers and torrents; reading and writing
  the state file beyond the fact that it is open; bootstrapping; restarting with a new own id.
- Dht: the contents of the black list (a parameter says whether an address is usable), and in
  RemoveNode the blame put on the node's origin, which may black-list it in turn.
- DhtState.ChangeNodeId: does not rewrite the node ids of requests under way.
- Dht.DHT.SplitRoute0: does not model that the dropped bucket's own prefix grows by a byte.
- CopyEngine: waiting for size and date before a copy begins, removing the target first or the
  source later, rates, temporary names, suspension while the destination is full. The no-progress
  timer is an input.
- CopyEngine: a source peer is taken to buffer bytes of the source at its position; the peers'
  own input and output, except ascii conversion, is not modelled.
- CopyEngine.EveryCopyIsExact: holds of runs in which no direct write moves the destination, it goes
  on where it says it is, no line buffer is left behind, and no seek back loses what is buffered,
  because the code does not meet it otherwise; the exact conditions are CopyFaults.CallIsRightIff
  and CopyEngine.DoKeepsInvIff. CopyEnd.WholeCopyArrives is about the same runs.
- CopyDone.WholeCopyCompletes: is about copies that do not continue an old file, from sources that
  do not fall back, do not end before what they promised, and are not to be removed.
- CopyEngine: whether the session of a peer is open is not a field; where a destination will go on,
  once opened, is. That it tells the truth about what it has written is part of its honesty.
- Ascii: what a full disk does to the position; writes after the reader is gone, which the peer no
  longer attempts.
- PathOptimize.OptimizedIsNormal: is about paths that begin with a slash or a tilde, because the
  code does not meet it for others; PathRelative.RelativeIsRightIff says when it treats those
  right, for a path without a device prefix.
- Bencode: the raw text kept with a parsed dictionary, and lengths that overflow a 32-bit integer
  in malformed input. Integer overflow is taken to wrap at 64 bits.
- HttpBody: inflating, headers and trailer lines, chunk sizes of 2^63 and more, and the rate
  limit's own arithmetic (what it allows is an input).
- Mirror.MirrorTree.Do: the contents of the sets and the outcome of every operation are inputs.
  Mirrors live in one sequence and name each other by index instead of by pointer. The history of a
  mirror is a field of the model alone.
- Mirror: looping, killed jobs, scripts, statistics other than the counter.
- MirrorPlan: flat targets, DELETE_EXCLUDED, the set of directories to make first, recursion other
  than "always", and what the patterns,
  date limits and size limits say: one arbitrary predicate stands for all that they filter out.
- FileSet: which attributes a merge takes over is a parameter that keeps the name; sorting other
  than by name. Reference counting of entries is not modelled: an array of values is reassigned.
- Queue: printing, and the text that NextCmd makes of a job. Patterns are predicates on commands.
- Queue.QueueFeeder.MoveOne: requires that the two numbers do not both name the last job, which the
  code asserts.
- Listing cache: its entries, expiry and trimming.
- FXP, FTP and SFTP protocols, resolver, SSL, job control, completion, and all display.
