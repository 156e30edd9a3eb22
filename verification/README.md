# AESD character device and socket server: a verified model

The model covers three layers that depend on each other.

* **The ring of write commands** (`CircularBuffer.dfy`): ten slots, two offsets and a `full` flag, with the
  search from a byte position to a slot and the search from a write command to a byte position.
* **The driver** (`KernelMemory.dfy`, `Driver.dfy`): `aesd_write` with all its exits, `aesd_read` with its
  16-bit counter, `aesd_llseek`, the SEEKTO ioctl, module initialisation and cleanup, over a heap of data
  buffers in which freeing a dead address or writing outside a buffer breaks a precondition.
* **The server** (`SocketServer.dfy`, `ServerRuns.dfy`, `WholeLines.dfy`, `ClientInterleaving.dfy`,
  `ServerReplies.dfy`): a client's line cut into 512-byte blocks, each delivered under the file mutex, the
  block-wise replay, several clients, with lines of any kind, taking the mutex in turn, and what they are
  sent back.

The reference is a plain history of commands (`CommandLog.dfy`): every command ever completed, the pending
one, whether the oldest retained one has been given up ahead of its replacement (a *hole*), and how many
bytes copy faults have thrown away. `Refinement.dfy` says what it means for the device's fields to
represent a history. The methods of `AesdDevice` are proved to follow the history step by step, so what is
proved about histories (`Positions.dfy`, `WriteRuns.dfy`, `DeviceRuns.dfy`) holds of the device in every
run: `DeviceActions.dfy` shows that each step of such a run is what the driver's method does.
`Counterexamples.dfy` has concrete inputs on which documented behaviour fails. `Sequences.dfy` holds sums
and concatenations.

`Refines` is a conjunction written as a quantifier over named aspects. A proof takes out only the aspect
it needs (`Aspects` takes out all of them).

`aesd_write` is one function in the source. Its four consecutive segments are methods here (`EvictOldest`,
`PrepareBuffer` with `MoveOpenEntry`, `CommitEntry` with `AddBuffer`), called in the source's order by
`AesdWrite`. The copy loop of `aesd_read`, the inner loops of the server and its section under the file
mutex are likewise methods of their own.

## What the code does differently from its documentation

Each item below is a proved statement giving the exact condition under which the documented behaviour
holds, and a concrete input, reached from the empty device, on which it does not.

* The SEEKTO ioctl promises the zero-referenced write command (`aesd_ioctl.h:27-29`). It keeps the promise
  for every offset exactly when reading starts at slot 0 and there is no hole, or in the one accidental case
  of a hole in the last slot and command 0; and it refuses command 9 although ten commands are retained
  (`Positions.SeekToIff`; `Counterexamples.WrappedSeek` after eleven writes, `SeekAtHole` after a failed one).
  What it answers in all other states is stated too (`Positions.SeekToCases`, `FirstCommandIff`).
* A read call returns more than `count` bytes exactly when `count` is 0 and its position is inside the
  content (`Positions.ReadHonoursCountIff`; `Counterexamples.ReadOfNothing`).
* A read that starts inside a command stops early: the copy loop compares the offset inside the command
  with `count`. It delivers what is asked for or left in the command exactly when `count` is positive and
  it starts at the command's first byte, asks for one byte, starts at the last one, or asks for at least
  the command's length (`Positions.ShortReadIff`; `Counterexamples.ShortRead`).
* The copy loop of a read ends exactly when its target is below 65536 (`Positions.CopyLoopEndsIff`;
  `Counterexamples.EndlessRead`).
* SEEK_END finds the end of the content exactly after the runs in which no copy fault hit a command with
  pending bytes (`WriteRuns.SeekEndIff`; `Counterexamples.FaultThenSeekEnd`). Unlike lseek's, it ignores the
  offset asked for (`main.c:289-291`); the condition is the same for every offset.
* A line becomes one command exactly when none of its blocks, even one in its middle, starts like a SEEKTO
  request and the driver accepts every block (`SocketServer.LineIsOneCommandIff`, for any outcomes;
  `Counterexamples.SwallowedLine`). The server does not act on the result of a write, so that a transfer
  with a refused block ends as a success (`Counterexamples.RefusedBlock`).
* With several clients, whatever their lines contain and whatever the driver does, each added command is the
  line of the client that completed it exactly when, for each line that ends, the blocks left in the log
  since a line last ended are the blocks of that line (`ClientInterleaving.WholeBlocksIff`). It is enough
  that, up to the last line that ended, each block in the log follows a block of its own client or the end
  of a line, and each line that ended is there with all its blocks (`OneLineAtATimeSuffices`). While the
  driver accepts every block that is also necessary (`LinesStayWholeIff`); once it refuses some, a block may
  stand in for an equal one of another client (`Counterexamples.StandInBlock`). Blocks that alternate violate
  the condition (`AlternatingBlocks`). So does a transfer cut off by a refused or malformed request in the
  middle of its line: what it has written becomes the beginning of the next client's command, although the
  mutex changed hands between lines only (`CutOffTransfer`). So does a copy fault in the block of one client,
  which wipes out what another has written (`FaultOfAnother`).

## Model

| member | source | states |
|---|---|---|
| `CircularBuffer.AesdCircularBuffer.Init` | aesd-char-driver/aesd-circular-buffer.c:161-164 | the ring starts with empty slots, both offsets at 0, not full |
| `CircularBuffer.AesdCircularBuffer.AddEntry` | aesd-char-driver/aesd-circular-buffer.c:115-156 | the whole new ring: the entry goes to the write slot; a new entry pushes the read slot of a full ring; a complete one moves the write slot and recomputes `full` |
| `CircularBuffer.AesdCircularBuffer.FindEntryOffsetForFpos` | aesd-char-driver/aesd-circular-buffer.c:31-61 | the wrapping search over possibly empty slots finds exactly the slot and offset that flat addressing of the slots in reading order gives, and nothing otherwise |
| `CircularBuffer.LocateIff` | aesd-char-driver/aesd-circular-buffer.c:21-30 | flat addressing finds nothing iff the position is at or past the total size, and otherwise the only pair whose preceding sizes plus offset make up the position |
| `CircularBuffer.AesdCircularBuffer.FindOffset` | aesd-char-driver/aesd-circular-buffer.c:63-106 | the two-exit seek loop has a closed form for every read slot, command and offset |
| `CircularBuffer.SeekThenLocate` | aesd-char-driver/aesd-circular-buffer.c:31-106 | unless the bare offset wins, looking up the position sought for an offset inside a slot gives back that slot and that byte |
| `CircularBuffer.SeekMeaning` | aesd-char-driver/aesd-circular-buffer.c:77-106 | the meaning of every answer of the seek: the bare offset from its second exit, a position that leads back to the slot and byte, negative past the slot's end, the total size for a slot number from 10 on |
| `CircularBuffer.EveryByteHasOneSeek` | aesd-char-driver/aesd-circular-buffer.c:63-106 | with the read slot at 0 every stored byte is reached by one and only one (slot, offset) pair |
| `KernelMemory.Kmem.Kmalloc` | aesd-char-driver/main.c:194-195 | a failed allocation gives NULL; a successful one any address not in use, with arbitrary contents, leaving other buffers alone |
| `KernelMemory.Kmem.Kfree` | aesd-char-driver/main.c:205 | removes exactly that buffer; callable only on a live address or NULL, so a double free cannot be verified |
| `KernelMemory.Kmem.Store` | aesd-char-driver/main.c:202-204 | copying changes only the named bytes of a live buffer and must stay within its bounds |
| `Driver.AesdDevice.constructor` | aesd-char-driver/main.c:431-441 | the initial device represents the empty history |
| `Driver.AesdDevice.EvictOldest` | aesd-char-driver/main.c:151-165 | the oldest command of a full ring with no open entry is freed, its length leaves `size` and `*f_pos` alike, and its place becomes a hole; otherwise nothing changes |
| `Driver.AesdDevice.MoveOpenEntry` | aesd-char-driver/main.c:202-207 | the open entry's bytes are the front of the new buffer, its own buffer is freed, and the ring then represents the history with those bytes dropped |
| `Driver.AesdDevice.PrepareBuffer` | aesd-char-driver/main.c:188-219 | either the allocation failed and nothing changed, or one extra buffer of the right size is live, beginning with the open entry's bytes |
| `Driver.AesdDevice.AddBuffer` | aesd-char-driver/main.c:230-242 | the ring with the buffer stored, complete iff its last byte is a newline, and the new-entry flag set accordingly |
| `Driver.AesdDevice.CommitEntry` | aesd-char-driver/main.c:230-245 | the filled buffer becomes the write slot's command, complete iff it ends in a newline, and `*f_pos` and `size` grow by the count |
| `Driver.AesdDevice.AesdWrite` | aesd-char-driver/main.c:134-268 | for every data, every outcome and every state: the device goes on to represent the history extended by this write, `*f_pos - size` is preserved, and the answer is a count iff the write is accepted, namely of the bytes the history has gained; no memory and bad address come with exactly their failures, and after a bad address nothing is pending |
| `Driver.AesdDevice.CopyToUser` | aesd-char-driver/main.c:96-115 | the copy loop delivers exactly the entry's next bytes, as many as its target, without wrapping its 16-bit counter |
| `Driver.AesdDevice.AesdRead` | aesd-char-driver/main.c:63-131 | a read delivers the bytes the history prescribes for the position and count, and advances the position by their number |
| `Driver.AesdDevice.AesdLlseek` | aesd-char-driver/main.c:270-301 | the new position for each whence; an unknown one changes nothing |
| `Driver.AesdDevice.AesdAdjustFileOffset` | aesd-char-driver/main.c:355-392 | the returned value is the sought position or negative, and the position changes only in the first case |
| `Driver.AesdDevice.AesdCleanup` | aesd-char-driver/main.c:469-476 | cleanup frees every live data buffer, each once, and leaves no pointer behind |
| `Refinement.RingFlags` | aesd-char-driver/aesd-circular-buffer.c:123-155 | in every represented state: not full means read slot 0 and write slot the number of completed commands; full means equal offsets, or the read slot one ahead while an entry is open |
| `Refinement.UnusedSlot` | aesd-char-driver/aesd-circular-buffer.c:123-155 | until the ring has filled up, slots past the write slot, and the write slot itself while no entry is open, are empty |
| `Refinement.LiveBuffers` | aesd-char-driver/main.c:151-242 | in every represented state the live data buffers are exactly the non-NULL slot pointers, no two slots share one, and sizes agree |
| `Refinement.ReadOrder` | aesd-char-driver/main.c:85 | the slots read in order hold exactly the retained commands, whose concatenation is the history's content |
| `Refinement.ReadFinds` | aesd-char-driver/main.c:85-118 | the search finds an entry with a live buffer exactly when the history has bytes at the position, and those are the bytes a read delivers |
| `Refinement.ClearEvicts` | aesd-char-driver/main.c:152-165 | freeing and clearing the write slot of a full ring represents the history with its oldest command given up |
| `Refinement.ClearDrops` | aesd-char-driver/main.c:205-228 | freeing and clearing the open slot represents the history with its pending bytes counted as lost |
| `Refinement.StoreFills` | aesd-char-driver/main.c:230-245 | the slot written is empty at that moment, so no buffer is overwritten, and the result represents the history with the longer or completed command |
| `CommandLog.WriteKeepsWellFormed` | aesd-char-driver/main.c:230-242 | completed commands end in a newline, pending ones do not, holes occur only in a full ring with no open entry, and a full ring stays full |
| `CommandLog.FilledPadded` | aesd-char-driver/aesd-circular-buffer.c:123-155 | storing shifts a full ring by one place, or fills the one open place and no other |
| `CommandLog.WriteSize` | aesd-char-driver/main.c:159-245 | every write changes content length plus lost bytes by what it accepted minus what it evicted |
| `Positions.ReadIsSlice` | aesd-char-driver/main.c:85-118 | a read delivers consecutive content from its position, nothing iff at or past the end, at most `count` bytes (one for count 0) |
| `Positions.ReadPiecesLocate` | aesd-char-driver/main.c:85-112 | reading from pieces laid end to end delivers the located piece's bytes, from one piece only |
| `Positions.ReadHonoursCountIff` | aesd-char-driver/main.c:109 | a read call returns at most `count` bytes iff `count` is positive or the position is at or past the end of the content |
| `Positions.ShortReadIff` | aesd-char-driver/main.c:94-113 | how many bytes a read from byte o of a command delivers, for every count, and exactly when that is as many as asked for or left |
| `Positions.CopyLoopEndsIff` | aesd-char-driver/main.c:67-115 | the copy loop with its wrapping 16-bit counter ends iff its target is below 65536, and then has copied exactly the target |
| `Positions.SmallCountsFit` | aesd-char-driver/main.c:67-115 | a count below 65536 is enough for the loop to end, whatever the device holds |
| `Positions.ReadAtPosition` | aesd-char-driver/main.c:85-118 | for every 64-bit position: from 0 on a read delivers content from there, empty iff at or past the end; below 0, converted to size_t, it delivers nothing |
| `Positions.SeekToIff` | aesd-char-driver/aesd_ioctl.h:27-33 | for every history and command: the ioctl answers as documented for all offsets iff the numbering condition on read slot, hole and command holds |
| `Positions.SeekToAgrees` | aesd-char-driver/main.c:355-392 | in those states each single answer is the documented one, errors included |
| `Positions.SeekToDiffers` | aesd-char-driver/aesd-circular-buffer.c:77-98 | in all other states below the bound there is an offset with a wrong answer |
| `Positions.SeekToBound` | aesd-char-driver/main.c:361-365 | refusing commands from 9 on is right iff there is no tenth command with bytes |
| `Positions.SeekToCases` | aesd-char-driver/aesd-circular-buffer.c:77-106 | the ioctl's answer for every history, command and offset: refused from 9 on, the bare offset below the read slot if that place holds data, else the place of the byte in the physical slot or a refusal past its end |
| `Positions.FirstCommandIff` | aesd-char-driver/aesd-circular-buffer.c:94-98 | in a full ring without a hole whose read slot has moved, command 0 answers the bare offset, which is as documented iff it is inside the first command |
| `Positions.DocumentedContent` | aesd-char-driver/aesd_ioctl.h:27-33 | from a documented position on, the content is the rest of that command and all later ones |
| `WriteRuns.RunHistory` | aesd-char-driver/main.c:134-268 | for every run of writes with any outcomes, the history is what the surviving pieces group into, a copy fault wiping out only the unterminated ones |
| `WriteRuns.RunFrom` | aesd-char-driver/main.c:134-268 | the same from any well-formed state: the run adds what the surviving pieces group into, the bytes pending at its start being the first of them unless a fault comes before any newline |
| `WriteRuns.RunRetained` | aesd-char-driver/main.c:151-245 | after every run a reader sees the last ten commands, or the last nine and the pending bytes, or only the last nine while there is a hole |
| `WriteRuns.RunHoles` | aesd-char-driver/main.c:151-186 | a hole exists iff the ring is full, no command is open and the latest write failed or was empty, so the next successful write repairs it |
| `WriteRuns.BytesConserved` | aesd-char-driver/main.c:205-245 | over every run, accepted bytes are those of completed commands, pending bytes and lost bytes |
| `WriteRuns.WriteAnswers` | aesd-char-driver/main.c:166-260 | what each answer of a write says about the history: the growth by a count, or no growth, with the pending bytes kept or gone |
| `WriteRuns.NothingLostIff` | aesd-char-driver/main.c:205-245 | over every run, bytes are lost iff some copy fault hit a command with pending bytes; faults in a fresh command are harmless |
| `WriteRuns.SeekEndIff` | aesd-char-driver/main.c:289-291 | after any run, SEEK_END lands on the end of the content iff no copy fault of the run hit pending bytes |
| `WriteRuns.GroupedIsLines` | aesd-char-driver/main.c:188-242 | however a stream is cut, with newlines only at the ends of pieces, accumulation yields the stream's lines |
| `WriteRuns.LinesAreLines` | aesd-char-driver/main.c:230-242 | the lines of a stream each have one newline, as last byte, the rest has none, and together they are the stream |
| `WriteRuns.StreamHistory` | aesd-char-driver/main.c:188-242 | for such pieces and any outcomes the history is the lines of the surviving stream |
| `WriteRuns.KeptSurvive` | aesd-char-driver/main.c:205-242 | the surviving pieces are the data of certain of the run's writes, whole and in the order of the writes |
| `WriteRuns.SuccessesAdd` | aesd-char-driver/main.c:188-242 | successful writes on top of any history without pending bytes add exactly the grouped commands |
| `DeviceRuns.RunIsItsWrites` | aesd-char-driver/main.c:144-264 | however reads, seeks and writes of any number of files interleave, the history is that of the writes in mutex order |
| `DeviceActions.Perform` | aesd-char-driver/main.c:63-392 | any action, carried out by the driver's methods on one of several open files, gives the new history, the positions of all files, the output and the returned value that the run's step has |
| `DeviceRuns.ClaimsAreMet` | aesd-char-driver/main.c:205-260 | over every run, the counts that writers were told add up to what the history has gained, but for the bytes copy faults took out of it |
| `DeviceRuns.WriteResults` | aesd-char-driver/main.c:166-260 | the answer of a write at its step of a run: a count iff accepted, equal to the growth of the history, otherwise the failure there was |
| `DeviceRuns.SeekSetIsAbsolute` | aesd-char-driver/main.c:281-283 | SEEK_SET leads to the position asked for from any position |
| `DeviceRuns.SeekCurIsRelative` | aesd-char-driver/main.c:285-287 | SEEK_SET to a and SEEK_CUR by b, negative b included, leave the world that SEEK_SET to a + b leaves |
| `DeviceRuns.ReadAndBack` | aesd-char-driver/main.c:117-118 | a read followed by SEEK_CUR by minus the count it returned restores the world, and the same read delivers the same bytes again |
| `DeviceRuns.UnknownWhence` | aesd-char-driver/main.c:293-294 | an unknown whence returns no position and moves nothing |
| `DeviceRuns.SeekResults` | aesd-char-driver/main.c:270-392 | what a seek of either kind returns is where the file then stands; a failed one changes nothing |
| `DeviceRuns.SoleWriter` | aesd-char-driver/main.c:159-245 | a sole writer's position moves with the device size over every run |
| `DeviceRuns.SoleWriterFromEmpty` | aesd-char-driver/main.c:159-245 | from the empty device on it equals the size, content plus lost bytes, and is never negative |
| `DeviceRuns.WriteAppendsIff` | aesd-char-driver/main.c:151-245 | the content grows by exactly what a write accepts iff the write evicts no bytes and discards none, inside an open command too |
| `DeviceRuns.InterleavedRead` | aesd-char-driver/main.c:99-118 | while others only append, what a file has read in pieces is one stretch of the final content, up to its position; the next two rows cover all runs |
| `DeviceRuns.ReadOfStream` | aesd-char-driver/main.c:85-118 | in every run, a read delivers the bytes of the stream of all commands at its file's place; those of completed commands stay there whatever is written, evicted or discarded later, and all of them do without discards |
| `DeviceRuns.EvictionsSkip` | aesd-char-driver/main.c:151-165 | in every run, between two consecutive reads of a file, its place in that stream moves on by what the first delivered plus exactly the bytes evicted in between |
| `DeviceRuns.Drained` | aesd-char-driver/main.c:85-118 | reads of arbitrary positive counts return consecutive pieces, and all of the content once there have been as many as bytes left |
| `DeviceRuns.SeekThenDrain` | aesd-char-driver/main.c:355-392 | SEEKTO and then reading delivers the named command from its offset and all later ones, or the ioctl fails and changes nothing |
| `SocketServer.BlocksOfLine` | server/aesdsocket.c:325-350 | the blocks of a line make up the line, all but the last have 512 bytes and no newline, the last ends in it |
| `SocketServer.ReceiveBlock` | server/aesdsocket.c:322-350 | the receiving loop takes the next 512 bytes, or the rest up to the newline, and reports which |
| `SocketServer.DeliverBlock` | server/aesdsocket.c:353-404 | one mutex section is one step of every server run; a block beginning with the 19 bytes "AESDCHAR_IOCSEEKTO:" writes nothing, any other is handed to the driver |
| `SocketServer.SectionByText` | server/aesdsocket.c:363-398 | the section by the literal text of the block: a request, whatever follows its 19 bytes, sets the offset to the ioctl's answer or ends the transfer; every other block is a driver write and leaves the offset |
| `SocketServer.ReadClientDataToFile` | server/aesdsocket.c:312-408 | the nested loops deliver exactly the blocks of the client's line, in order, each as a driver write or a SEEKTO request |
| `SocketServer.LineIsOneCommand` | server/aesdsocket.c:320-405 | when no bytes are pending and the driver accepts every block, an ordinary line of any length becomes exactly one command |
| `SocketServer.LineIsOneCommandIff` | server/aesdsocket.c:363-402 | for any outcomes: it does so exactly when none of its blocks starts like a SEEKTO request and the driver accepts every block |
| `SocketServer.SeekToSession` | server/aesdsocket.c:363-389 | a client whose line begins with "AESDCHAR_IOCSEEKTO:", whatever follows, writes nothing and gets the named command's rest and all later commands, or an error |
| `SocketServer.ReadBlock` | server/aesdsocket.c:422-443 | a block of the replay is the next 512 bytes of content or what is left |
| `SocketServer.SendDataBackToClient` | server/aesdsocket.c:410-460 | on unchanged content the blocks sent are the content from the offset, without gap or repeat, of 512 bytes each but the last, and their number is the length divided by 512, plus one |
| `SocketServer.ReplayWhileGrowing` | server/aesdsocket.c:419-457 | in every device run whose writes only append, a reply whose blocks are taken at moments of that run is the content, from the offset on, as of the last block |
| `SocketServer.ReplayAcrossEvictions` | server/aesdsocket.c:419-457 | in every device run, evictions and faults included, each block of a reply is the stream's bytes at its place, and from block to block the place moves on by the block and exactly the bytes evicted in between |
| `SocketServer.AesdsocketTask` | server/aesdsocket.c:462-477 | a session delivers the line and replies with the resulting content from the resulting offset |
| `SocketServer.SessionReply` | server/aesdsocket.c:462-477 | a lone client whose ordinary line the driver accepts gets up to nine earlier commands and its own line at the end |
| `ServerRuns.SoloRun` | server/aesdsocket.c:312-408 | a client's sections with no other client's in between are its delivery |
| `ServerRuns.RunIsItsWrites` | server/aesdsocket.c:353-403 | however the clients' sections interleave, the history is that of the driver writes in mutex order |
| `ServerRuns.CommandsAreLines` | server/aesdsocket.c:353-403 | for every interleaving of clients with any lines, SEEKTO requests included, and any driver outcomes, each command has one newline, as last byte, and the pending bytes none |
| `ServerRuns.ClientOrder` | server/aesdsocket.c:320-405 | when the driver accepts every block, the run's bytes in the log are the written blocks in mutex order, and each client's share of them is the non-SEEKTO blocks of its line, in order, up to where it has got |
| `ServerRuns.OrdinaryClientBlocks` | server/aesdsocket.c:320-405 | a client with an ordinary line has handed over exactly the first blocks of it, in order, and in the end they make up the line |
| `ServerRuns.ClientOrderUnderFailures` | server/aesdsocket.c:320-405 | from any state and for any outcomes, the run adds whole blocks to the completed commands and to the bytes pending before, unless a fault hits these; those of one client are in the order of its line |
| `WholeLines.MatchingIffWhole` | server/aesdsocket.c:353-403 | for any blocks of several lines in any order: the commands they make are the lines of the clients that complete them iff the blocks since a line last ended are, each time, the blocks of the line that ends |
| `WholeLines.OneLineAtATimeIsWhole` | server/aesdsocket.c:353-403 | this is so when each block follows its own client's or the end of a line, and every line that ends has all its blocks |
| `ClientInterleaving.WholeBlocksIff` | server/aesdsocket.c:353-403 | for every run from a state without pending bytes, any lines and any outcomes: each added command is its completing client's line iff the blocks left in the log are, for each line that ends, that line's blocks |
| `ClientInterleaving.OneLineAtATimeSuffices` | server/aesdsocket.c:353-403 | under any outcomes, blocks in the log that do not alternate, and lines that end with all their blocks, are enough for that |
| `ClientInterleaving.LinesStayWholeIff` | server/aesdsocket.c:353-403 | when the driver accepts every block, that condition is exact, for clients with any lines |
| `ClientInterleaving.ShortLines` | server/aesdsocket.c:325-405 | with lines of at most one block each and any outcomes, the added commands are the lines of the clients whose writes succeed, in mutex order, and nothing stays pending |
| `ServerReplies.ReplyHoldsOwnLine` | server/aesdsocket.c:410-477 | among any clients, the reply to a client whose line has become a command holds that line between the commands before and since, exactly as long as fewer commands have been completed since than the ring has room for; afterwards it is made of later bytes only |
| `Counterexamples.WrappedSeek` | aesd-char-driver/aesd-circular-buffer.c:77-98 | after eleven one-line writes the ioctl answers 0 for command 1, which begins at byte 2, refuses the tenth command, and answers 1 for byte 1 of command 0 but also 100 for its byte 100, past the end of the content |
| `Counterexamples.SeekAtHole` | aesd-char-driver/main.c:151-186 | after ten writes and a failed one the ioctl refuses byte 0 of the first retained command |
| `Counterexamples.FaultThenSeekEnd` | aesd-char-driver/main.c:221-228 | an unterminated write of two bytes and a copy fault leave an empty device on which SEEK_END answers 2 |
| `Counterexamples.ReadOfNothing` | aesd-char-driver/main.c:96-115 | a read with count 0 returns one byte |
| `Counterexamples.ShortRead` | aesd-char-driver/main.c:109 | after "abcdef" and a newline, a read of 3 bytes at position 4 delivers "e" |
| `Counterexamples.EndlessRead` | aesd-char-driver/main.c:67-115 | a read of 65536 bytes from the beginning of a command of that length, just written, never ends |
| `Counterexamples.SwallowedLine` | server/aesdsocket.c:363-389 | a line whose second block starts like a SEEKTO request leaves its first block pending and is never completed, however the request is read |
| `Counterexamples.RefusedBlock` | server/aesdsocket.c:391-402 | an ordinary 513-byte line whose first block the driver refuses: the transfer reports success and the command is a newline |
| `Counterexamples.CutOffTransfer` | server/aesdsocket.c:382-389 | after a transfer cut off by a malformed request, the next client's undisturbed line becomes the end of a longer command |
| `Counterexamples.AlternatingBlocks` | server/aesdsocket.c:353-403 | two 513-byte lines whose blocks alternate make one command that is neither |
| `Counterexamples.FaultOfAnother` | aesd-char-driver/main.c:221-228 | a copy fault in one client's block wipes out the pending block of another, whose line is left as a newline although its own writes all succeed |
| `Counterexamples.StandInBlock` | server/aesdsocket.c:391-402 | two clients send the same line, one block arriving from each since the driver refuses another: the command is the line, although the blocks alternate |

## Left out

- Device registration, opening and releasing files, debug output: calls into the kernel without logic of their own.
- The `new_entry` wrapper struct: only its failed allocation is modelled; data buffers are what ownership is stated for.
- Interrupted lock acquisition and the decoding of ioctl numbers.
- Exact values of error codes and of the uninitialised result of a zero-count write; they are named, not numbered.
- Faults of `copy_to_user`, whose result the driver ignores.
- Overflow of `size_t` and `unsigned long` sums: memory cannot hold that many bytes. The 16-bit read counter and the conversion of `f_pos` to `size_t` are modelled exactly.
- AesdRead: requires a target below 65536, because otherwise the loop never returns and keeps the mutex (`Positions.CopyLoopEndsIff`); runs contain only reads that end.
- InterleavedRead: runs without evictions and faulted appends, in which positions stay put; `ReadOfStream` and `EvictionsSkip` cover all runs.
- ReplayWhileGrowing: runs without evictions and faulted appends; `ReplayAcrossEvictions` covers all runs.
- LinesStayWholeIff: the driver accepts every block; `WholeBlocksIff` is the condition for any outcomes.
- ClientOrder: the driver accepts every block; `ClientOrderUnderFailures` is for any outcomes.
- ReplyHoldsOwnLine: other clients may evict commands before the replay begins, but only append between its first and its last block; what blocks contain otherwise, `ReplayAcrossEvictions` says.
- AesdLlseek: takes no lock in the source, so that SEEK_END during another file's write can see the device size between eviction and commit; here a seek comes before or after a write.
- Socket setup, signals, daemon mode, teardown, thread creation and the client table; errors of `recv`, `send`, `fopen` and memory allocation in the server.
- stdio buffering: a flushed block is one driver write, `fread` of one byte is one driver read. Where opening a stream leaves the position is not modelled, since neither writes nor the ioctl's answer depend on it.
- Parsing of the SEEKTO text: an arbitrary function of the block.
- The two-byte comparison in the newline test, which reads one byte past a full buffer: modelled as a comparison of the byte received.
- The timestamp thread, which the character-device build does not start.
