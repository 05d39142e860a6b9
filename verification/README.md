# A verified model of the folder client's hard parts

The elasticdms folder client mirrors an archive into a local folder. This project models the parts of it where a
mistake is silent (a transfer, a chunk buffer, a vault, a seal, a list, a file format) and proves what they
promise, in Dafny 4.11. `dafny verify dfyconfig.toml` checks all of it. Each module is one file of its name.

## What is modelled, and how

**The bridge** (`Frame`, `Reader`, `Writer`, `Exchange`, `Messages`, `Server`, `Client`, `EndToEnd`, `Connection`, `Dialogue`).
The line is a byte stream. The writer's line may break inside any write; the reader's schedule is any list of short
reads, idle time slices, interrupts and errors, each with the time it takes; a stream may be cut anywhere.
`Frame.ParseFrom` is the meaning of a stream without a schedule: which inbox stands first in it, or which rule it
breaks, and how many bytes that takes. The reading loops (`Reader`) are proved against it on every schedule, the
writing loops (`Writer`) against `EncodeFrame`, `EncodeJson` and `EncodeData`, and round trips connect the two. On
top stand the two halves of a content transfer, composed in `EndToEnd.Transfer`, the grammar of a whole connection in
`Connection.Run`, and the client that meets it in `Dialogue.Meet`. Every method that may give up says why: which write
the line cut short, which look found the app or the peer gone, which answer of the sink, which call of the schedule. The JSON encoder is a parameter (`Messages.Codec`); where a theorem needs it to be
readable back, the assumption has a name (`Faithful`, and `Usable` for the client, which also says that a progress
notice is a short message).

**The stop protocols** (`AcceptBook`, `Beat`) are state machines whose steps are those of the threads, with the mutex
and the condition variable between them; a run is any interleaving.

**The block buffer** (`Blocks`): the buffer is a class with the source's fields and two ghost ones, what was kept and
how many bytes a failed hand-off dropped. `Proper` says what a complete hand-over is without saying how it is cut,
`Canonical` is the one sequence that obeys it.

**The vault** (`VaultFormat`, `Vault`, `VaultTheorems`): a keychain is a map from name to bytes whose calls stop working
after any number of them. Reads, writes and deletes are methods over it; what a write leaves behind after any number of
calls is a function, and the theorems are about that function.

**Set-up and seal** (`Seal`, `Starts`, `BaseAddress`, `Setup`, `SetupTheorems`): the order of precedence that resolves
the nine values, the one door that stores a typed one, the pages that go through it, the comparison that decides
whether a workstation was pointed elsewhere, and the life of a workstation over any sequence of starts, each of which
may stop before any of its writes.

**The log and the window** (`Paging`, `Control`): the hint rows and the store's rows paged as one list, and the event
loop's state over any sequence of events.

**Formats** (`Icons`, `Identifiers`, `Page`, `Json`, `PageProtocol`, with `Bytes` and `Text` below them): DIB and ICO,
SID and CLSID, the page put together from its parts, JSON strings and their escape in a script, and the length budget
of the set-up's request. Each writer has a reader beside it that shares no code with it.

## Where the code does not do what it says

Each of these is a lemma or method with the input that shows it, beside the exact condition under which the promise holds.

- A torn vault write does not always show on reading (`crates/app/src/vault.rs:211-217` says it does): it always shows
  exactly for the lengths of `VaultTheorems.Detects`; otherwise the new first chunk reads back in front of the old rest.
- A write after a torn one can leave a chunk of the old value behind for good (`VaultTheorems.LeftoverStays`): a completed
  write leaves exactly its value if and only if no gap stood in front of a chunk beyond its own
  (`VaultTheorems.WriteStoresExactly`), and the same holds for a delete (`VaultTheorems.DeleteVacatesExactly`).
- A block buffer whose hand-off failed can still be completed with `Ok` (`Blocks.FailedHandOffCompletesAllTheSame`);
  nothing is missing exactly when `sent` has reached `total` (`Blocks.BlockBuffer.Complete`).
- An empty `T` part leaves nothing collected, so that a data chunk behind it passes (`Frame.DataAfterAPart`).
- An address with a blank in front of its closing slashes is stored with the blank and read without it
  (`SetupTheorems.ABlankBehindTheHost`), which the two channels' promise of one form excludes
  (`SetupTheorems.BothChannelsAgree`); and a device enrolled with such an address from the environment takes its own server
  for another one at its next start (`Starts.SealSurvivesAStart`). That is a false alarm and no more: `Starts.Life` is
  about such addresses too.
- Between the two deletes of a re-point a stop leaves a key set without a mark, and so does a stop of an enrolment between
  anchoring and mark; the next engine, of any server, runs over it (`Starts.StoppedBetweenTheDeletes`,
  `Starts.StoppedBeforeTheMark`).
- An acceptor that cannot be woken may insert one connection that nobody closes (`AcceptBook.UnjoinedAcceptorMayInsertLate`),
  exactly from the states that `AcceptBook.LateInsertExactly` names.
- A part of the page that ends with an opening brace can open a marker at its seam, although it contains no marker
  (`Page.ASeamOpensAMarker`).

## Model

| member | source | states |
|---|---|---|
| Frame.CheckHeader | crates/bridge/src/frame.rs:211-247 | an accepted header is of a kind the limit admits, within its length, and never a data chunk in the middle of a message |
| Frame.ParseFrom | crates/bridge/src/frame.rs:167-200 | the first inbox of a stream: it looks at no more bytes than there are, all of them only when the stream ends too early, and at least a header otherwise |
| Frame.ParseIgnoresTheTail | crates/bridge/src/frame.rs:167-200 | what a stream means, and how much of it is used, does not depend on what follows |
| Frame.ParseOfACut | crates/bridge/src/frame.rs:167-200 | a stream cut before its inbox is complete means that it ended, never another inbox |
| Frame.JsonRoundTrip | crates/bridge/src/frame.rs:289-304 | a message, undivided or in parts, followed by any tail is read as itself and uses exactly its own bytes |
| Frame.DataRoundTrip | crates/bridge/src/frame.rs:307-314 | a data chunk followed by any tail is read as its offset (of 64 bits) and its bytes, and uses exactly its own bytes |
| Frame.InboxIsBounded | crates/bridge/src/frame.rs:55-66 | on every stream what is handed on is within the limit |
| Frame.OneFrameWithoutParts | crates/bridge/src/frame.rs:55-66 | under the handshake and request limits one frame settles the matter |
| Frame.OversizedHeaderIsRefused | crates/bridge/src/frame.rs:211-247 | a JSON frame too long for the limit at the front of a stream is refused having used its five header bytes and none of its payload |
| Frame.HeaderAloneRefuses | crates/bridge/src/frame.rs:167-247 | on every stream, limit and place a frame is refused exactly when its header names no kind, an unknown one, one that may not stand there or a length too large (the total of the parts included), and the refusal has used those five bytes alone |
| Frame.BreachUsesPartsAndAHeader | crates/bridge/src/frame.rs:167-200 | on every stream a refusal has used whole parts, and then exactly the header of the frame refused |
| Frame.SplitRequestIsRefused | crates/bridge/src/frame.rs:211-247 | a divided message is refused by its first header where parts are not allowed |
| Frame.DataAfterAPart | crates/bridge/src/frame.rs:175-175 | a data chunk behind a part is refused exactly when the part carried a byte |
| Reader.ReadExactly | crates/bridge/src/frame.rs:250-286 | fills the buffer with exactly the next bytes or fails for a reason its schedule shows; a silence deadline runs anew from every call that brought a byte and from no other; a fixed one stands, and is overrun by at most one slice and one more per interrupted call |
| Reader.ReadHeader | crates/bridge/src/frame.rs:204-247 | the header's verdict is that of the grammar, whatever the schedule |
| Reader.ReadFrame | crates/bridge/src/frame.rs:167-200 | one frame read is one step of the grammar, and no more bytes are gone than it uses |
| Reader.ReadInbox | crates/bridge/src/frame.rs:167-200 | on any schedule the answer is the meaning of the stream with exactly its bytes gone, or a justified stop, past a silence deadline only when its duration has gone by without a byte; never a larger buffer than the limit's ceiling; under handshake and request limits within two slices of the deadline plus one per interrupt |
| Reader.NothingStops | crates/bridge/src/frame.rs:120-165 | short of the bytes a schedule is enough for nothing stops a read: a fixed deadline has to hold for the whole, a silence deadline for each gap between two bytes alone, however long all of it takes |
| Writer.WriteFrame | crates/bridge/src/frame.rs:317-325 | one write of the whole frame, on the line exactly when the line takes that much, or a proper prefix of it and the line has failed |
| Writer.WriteJson | crates/bridge/src/frame.rs:289-304 | too large exactly above MAX_MESSAGE and then nothing is written; otherwise the encoding, or a proper prefix of it and only if the line would not take a whole frame in its last write |
| Writer.WriteData | crates/bridge/src/frame.rs:307-314 | too large exactly above MAX_DATA_CHUNK and then nothing is written; otherwise the encoding, or a proper prefix of it and only if the line would not take a whole frame |
| Exchange.Receive | crates/bridge/src/frame.rs:167-286 | a schedule with enough ready calls always brings the inbox, under a silence deadline whenever no gap reaches it; whatever is answered is the meaning of the stream |
| Exchange.SendAndReceive | crates/bridge/src/frame.rs:167-329 | what comes back is the message with exactly the tail left, or the line broke, or the read stopped; a line that takes whole frames and a schedule that is enough always deliver |
| Exchange.BrokenMessage | crates/bridge/src/frame.rs:289-304 | a message that broke off anywhere is a stream that ended, never another message |
| Messages.ChunksCarryTheData | crates/bridge/src/server.rs:529-546 | the chunks of one write carry its bytes, all of them, each within the chunk limit |
| Messages.ItemsCarryWhatWasWritten | crates/bridge/src/server.rs:518-562 | the items of an engine's calls carry exactly what it wrote, in order |
| Server.RemoteSink.Cancelled | crates/bridge/src/server.rs:548-562 | stops on a halt it sees, and on a closed peer whenever that is asked for (first, and then 25 ms apart), and for no other reason; once stopped, stopped for good, and nothing is put on the line |
| Server.RemoteSink.Tell | crates/bridge/src/server.rs:519-527 | a progress notice is on the line whole, or a prefix and the sink has stopped for a halt, a closed peer, a line that broke or a notice too long; a stopped sink keeps silent |
| Server.RemoteSink.Write | crates/bridge/src/server.rs:529-546 | all chunks of the write in order are on the line, or a prefix of them and the sink has stopped for one of these reasons; it refuses exactly when it has stopped |
| Server.Send | crates/bridge/src/server.rs:473-489 | the notice, or the notice that it was too large, is on the line; or a prefix and the answer is not done, because the line broke or even that notice is too large |
| Server.DeliverContent | crates/bridge/src/server.rs:443-471 | for an arbitrary engine: a prefix of progress and data items in order and at most one END or ERROR, all of it when done; not done only for a line that broke, a halt, a closed peer or a message too large; after a failed write nothing more is written |
| Client.FetchOnlyAppends | crates/bridge/src/client.rs:158-218 | what a client has handed over is never taken back |
| Client.TakeIn | crates/bridge/src/client.rs:178-216 | one inbox extends the contents exactly by a chunk at the place reached, or ends the transfer as the grammar says, or a write was made that the sink refused |
| Client.FetchContent | crates/bridge/src/client.rs:158-218 | the transfer ends as the stream says with exactly the contents it carries, or is broken off with a prefix of them, because the caller cancelled, the sink refused a write, or the read stopped for a reason its schedule shows |
| EndToEnd.FetchIsSound | crates/bridge/src/client.rs:158-218 | whatever prefix of an answer arrives, the contents are a prefix of what was written, and a receipt means that all of it arrived, with that size, and that it is the last message's own |
| EndToEnd.Transfer | crates/bridge/src/server.rs:443-471 | server and client together, for every engine, break, cut, schedule, cancellation and sink: the sink holds a prefix of what the engine wrote; a receipt means all of it, of its size, and it is the engine's receipt; undisturbed, it ends with a receipt exactly when the engine wrote ascending without gaps and its receipt names the total |
| EndToEnd.ContentIsOrderly | crates/bridge/src/server.rs:443-471 | an answer is progress and data, then at most one message more, which is END or ERROR; a receipt in it is the engine's |
| EndToEnd.GaplessIsConsecutive | crates/bridge/src/server.rs:529-546 | the chunks on the wire are consecutive from 0 exactly when the engine's writes were |
| EndToEnd.WholeAnswerIsDelivered | crates/bridge/src/client.rs:158-218 | when the whole answer arrives, the client ends with a receipt if and only if the engine wrote ascending without gaps and its receipt names the total |
| Connection.DifferenceShows | crates/bridge/src/rendezvous.rs:93-99 | the folded difference of two byte strings is 0 exactly when they agree so far |
| Connection.ConstantTimeIsEquality | crates/bridge/src/rendezvous.rs:93-99 | the comparison is equality, lengths included |
| Connection.Run | crates/bridge/src/server.rs:367-489 | nothing is answered before a HELLO of the right version and secret, and one who brings it is refused only if the read was stopped, with its reason; after it a prefix of the greeting and of one answer, all of it when done; a client that asks in time is answered in full if nothing keeps the app from it; without a HELLO the connection is let go within the deadline, two slices and one per interrupt |
| Connection.Admit | crates/bridge/src/server.rs:367-392 | admitted means the one HELLO, read with exactly its bytes; not admitted with it means that the read was stopped |
| Connection.Serve | crates/bridge/src/server.rs:393-441 | behind the HELLO at most one request is answered; torn only for a line that broke, a halt, a closed peer, a message too large or a read that stopped; a protocol error only when no request came; nothing follows a failed write |
| Connection.Reply | crates/bridge/src/server.rs:404-471 | the answer to one request, or a prefix of it and the reason; a request that is not understood is told so |
| Dialogue.Open | crates/bridge/src/client.rs:101-142 | HELLO and then nothing before the WELCOME of this version; each failure is the stream's, the line's or that of a read that stopped, and named as such |
| Dialogue.Ask | crates/bridge/src/client.rs:144-156 | one question on a connection of its own: what comes back is what the stream says behind its WELCOME, the question is never written before that, and a line and a schedule that let it through always bring the answer |
| Dialogue.Meet | crates/bridge/src/client.rs:100-156 | client and app together, whatever of the client's words arrives: with another secret the client hears nothing and says nothing behind its HELLO; what it is told is the app's answer to its question; with the right secret, undisturbed, it is told |
| AcceptBook.EveryRunKeeps | crates/bridge/src/server.rs:199-329 | over all interleavings: the lock has one holder, every id is open or carried out, each open one has exactly one thread to carry it out, the limit holds, no wake-up is lost, shutting down goes as it should |
| AcceptBook.BookOverEveryRun | crates/bridge/src/server.rs:227-247 | never more than MAX_CONNECTION open; each step inserts the next id or carries an open one out; an id carried out stays out |
| AcceptBook.SleeperIsWoken | crates/bridge/src/server.rs:210-247 | an acceptor asleep without cause is awake after at most the next two steps of the dropper, or the next step of a connection that gave its place back |
| AcceptBook.WhoOwesWakes | crates/bridge/src/server.rs:169-247 | whichever of these threads owes the wake-up, its own next steps wake a sleeping acceptor |
| AcceptBook.JoinedMeansClosed | crates/bridge/src/server.rs:169-197 | once joined nothing is inserted any more, and close_all has reached every open connection |
| AcceptBook.OneInsertAfterTheStop | crates/bridge/src/server.rs:285-329 | after the stop at most one connection is still inserted, however the threads run |
| AcceptBook.UnjoinedAcceptorMayInsertLate | crates/bridge/src/server.rs:169-197 | the exception, as a run of fourteen steps: a failed wake-up call, and one open connection that nobody closes |
| AcceptBook.LateInsertExactly | crates/bridge/src/server.rs:169-197 | in every stopped state some continuation leaves an open connection unclosed if and only if the acceptor is past its last look at hold and nobody waits for it any more, or has inserted behind close_all |
| Beat.EveryRunKeeps | crates/cfapi/src/intake.rs:129-203 | over all interleavings: a thread that waits although it was stopped is about to be woken, and a drop that returned has joined |
| Beat.NoRoundAfterTheDrop | crates/cfapi/src/intake.rs:155-203 | no round begins once the stop is set, none runs once the drop has returned |
| Beat.StoppingDoesNotWaitOutTheInterval | crates/cfapi/src/intake.rs:155-168 | a waiting thread is woken by the dropper's next step |
| Blocks.RoundedUp | crates/cfapi/src/blocks.rs:89-93 | the chunk size is the least multiple of the alignment that holds what was asked for and at least one byte |
| Blocks.BlockBuffer.Take | crates/cfapi/src/blocks.rs:114-149 | a misplaced piece changes nothing; a piece taken stands behind what was kept; what has gone out is the whole chunks of what was kept; a failed hand-off was asked for in this call and refused by the output, drops exactly what stands behind the chunk, and the bytes count as received |
| Blocks.BlockBuffer.FillUp | crates/cfapi/src/blocks.rs:128-139 | the buffered bytes and the front of the piece make one chunk at most, and nothing is skipped or repeated; a failure is a hand-off the output refused |
| Blocks.BlockBuffer.PassThrough | crates/cfapi/src/blocks.rs:140-149 | whole chunks go out in order, the rest is buffered; a failure is a hand-off the output refused, and drops what is left |
| Blocks.BlockBuffer.Complete | crates/cfapi/src/blocks.rs:156-170 | refused unless everything was received, or if the output refuses the rest; then what has gone out is canonical for what was kept, and that is the whole file if and only if sent has reached total |
| Blocks.ProperIsCanonical | crates/cfapi/src/blocks.rs:114-170 | the rules (gapless from 0, whole chunks but the last, nothing empty but for an empty file) leave exactly one sequence of pieces |
| Blocks.CanonicalIsProper | crates/cfapi/src/blocks.rs:114-170 | that sequence obeys the rules, an empty file being one empty piece |
| Blocks.PiecesAreAligned | crates/cfapi/src/blocks.rs:89-93 | every piece starts aligned, and is of aligned length or ends with the file |
| Blocks.Replay | crates/cfapi/src/blocks.rs:114-170 | any calls in any order with any failures: a failed hand-off is reported exactly when the output refused one it was asked for; completed means emitted and dropped add up to the total; if none was refused every call has its own answer, and the output depends on the bytes and the chunk size alone, never on the fragmentation |
| Blocks.HandOver | crates/cfapi/src/blocks.rs:114-170 | a whole file, cut anyhow, on an output that takes every hand-off: completed, and what has gone out is the canonical sequence of the file |
| Blocks.FailedHandOffCompletesAllTheSame | crates/cfapi/src/blocks.rs:127-127 | a file of two chunks, an output that took nothing, and Ok |
| Blocks.ReportsWhatIsOpen | crates/cfapi/src/blocks.rs:179-197 | a byte is reported exactly when it was requested and has not been sent |
| Blocks.ReportStartsAligned | crates/cfapi/src/blocks.rs:179-197 | the reported start is unaligned exactly when a ragged end has been sent and the request reaches past it |
| VaultFormat.ChunkCount | crates/app/src/vault.rs:202-210 | the least number of chunks that holds the value, and one for an empty value |
| VaultFormat.HeaderRoundTrip | crates/app/src/vault.rs:253-276 | a header reads back as its count and its length |
| VaultFormat.StoredReadsBack | crates/app/src/vault.rs:169-200 | a stored value, empty and exact multiples included, reads back as itself |
| VaultFormat.NamesAreApart | crates/app/src/vault.rs:140-147 | entries of slots without # never share a name |
| Vault.SystemVault.Read | crates/app/src/vault.rs:169-200 | the read answers what the entries mean, or the keychain gave out |
| Vault.SystemVault.Write | crates/app/src/vault.rs:202-230 | after any number of calls the entries are those of the specification, and Ok means that all calls were made; too large changes nothing |
| Vault.SystemVault.WriteChunks | crates/app/src/vault.rs:211-224 | exactly the first chunks, as many as calls were left |
| Vault.SystemVault.ClearChunks | crates/app/src/vault.rs:242-249 | exactly the run of chunks from there on, up to the first gap |
| Vault.SystemVault.Delete | crates/app/src/vault.rs:232-237 | the header goes first, then the chunks; the entries are those of the specification after any number of calls |
| VaultTheorems.WriteStores | crates/app/src/vault.rs:202-230 | over contiguous chunks a completed write leaves exactly the value's header and chunks 1 to n |
| VaultTheorems.WriteStoresExactly | crates/app/src/vault.rs:202-249 | over any entries, torn ones too, a completed write leaves exactly its value if and only if no gap stood in front of a chunk beyond the new value's own |
| VaultTheorems.DeleteVacates | crates/app/src/vault.rs:232-249 | over contiguous chunks a completed delete leaves nothing |
| VaultTheorems.DeleteVacatesExactly | crates/app/src/vault.rs:232-249 | over any entries a completed delete leaves nothing if and only if no gap stood in front of any chunk |
| VaultTheorems.OtherSlotsStay | crates/app/src/vault.rs:140-147 | however far a write or delete gets, no name of another slot changes |
| VaultTheorems.StepRefines | crates/app/src/vault.rs:202-250 | one completed operation on the entries is one operation on the map |
| VaultTheorems.VaultIsAMap | crates/app/src/vault.rs:168-237 | any sequence of completed writes and deletes behaves like a map, and every read answers from it |
| VaultTheorems.InterruptedWrite | crates/app/src/vault.rs:202-230 | the read after a write stopped at any call: a missing chunk, a wrong length, or the new beginning with the old end, and exactly when |
| VaultTheorems.InterruptedFirstWrite | crates/app/src/vault.rs:202-230 | a slot without a value has none until the header stands |
| VaultTheorems.TearAlwaysShows | crates/app/src/vault.rs:211-217 | for the lengths of Detects every interrupted write that touched a chunk is refused by every read |
| VaultTheorems.TearGoesUnnoticed | crates/app/src/vault.rs:211-217 | for all other lengths an interruption after the first chunk reads back as an intact value |
| VaultTheorems.TearOverOneChunk | crates/app/src/vault.rs:211-217 | an old value of at most one chunk: the tear shows exactly when its length is not that of the new first chunk |
| VaultTheorems.MixtureOfTwo | crates/app/src/vault.rs:211-217 | two values of two chunks, and a read that gives neither |
| VaultTheorems.LeftoverStays | crates/app/src/vault.rs:242-249 | a gap left by an interrupted write hides an old chunk from every later clearing; the family that `VaultTheorems.WriteStoresExactly` shuts out, as it comes about |
| Seal.SameAddressMeans | crates/app/src/setup.rs:987-997 | two addresses are the same exactly when they agree up to ASCII case before the end of the authority and letter for letter behind it |
| Seal.SameServerIsAnEquivalence | crates/app/src/setup.rs:971-975 | being the same server is reflexive, symmetric and transitive |
| Starts.RespellingStaysInTheClass | crates/app/src/setup.rs:895-902 | a seal rewritten halfway in a new spelling, blanks at the ends included, still names the same server |
| Starts.ComparisonDecides | crates/app/src/setup.rs:949-975 | a seal written with one set of addresses and compared with another: at home if and only if they name one server, blanks aside, and the other ones carry no blanks; so no re-point is missed |
| Starts.SealSurvivesAStart | crates/app/src/setup.rs:870-881 | after a start that changed nothing an enrolled device is at home if and only if its addresses carry no blanks at their ends |
| Starts.Workstation.Remember | crates/app/src/setup.rs:895-902 | the seal is rewritten address by address, for any addresses that are not blank, and stays the seal of the mark's server wherever it stops |
| Starts.Workstation.StartAfresh | crates/app/src/wiring.rs:414-467 | mark and key set of the old server go, in this order; a stop between them leaves a stray key set |
| Starts.Workstation.Start | crates/app/src/wiring.rs:293-311 | one start with any addresses that are not blank, stopping before any write: which engine was built over which mark and key set, in every branch of the comparison |
| Starts.Workstation.NoteChanged | crates/app/src/setup.rs:912-916 | the old server is noted and the set-up is owed again |
| Starts.Workstation.Enrol | crates/engine/src/session.rs:537-560 | keys are anchored before the mark is set and never over another server's; a stop between the two leaves a stray key set, a completed enrolment ends it |
| Starts.Life | crates/app/src/wiring.rs:293-311 | over any sequence of starts, enrolments and stops, with any addresses that are not blank, no engine is built against another server than the one of the mark that stood, nor than the one of the key set unless a stop had parted the two; the seal never leaves the class of the mark's server |
| Starts.StoppedBetweenTheDeletes | crates/app/src/wiring.rs:464-465 | the exception: an engine of the second server over the key set of the first |
| Starts.StoppedBeforeTheMark | crates/engine/src/session.rs:552-557 | the other exception: anchored, not yet marked, pointed elsewhere, and nothing to compare |
| BaseAddress.CutSlashes | crates/net/src/connection.rs:178-179 | what is left is a prefix that does not end with a slash |
| BaseAddress.CheckIsIdempotent | crates/net/src/connection.rs:178-209 | an accepted address is accepted again in the same form |
| Setup.Holds | crates/app/src/setup.rs:732-751 | a root holds another path exactly when its components are the first ones of it, on Windows without regard to case |
| Setup.CheckRoot | crates/app/src/setup.rs:677-728 | the verdict on a mirror root: the first of its own places it lies above, or what lies in it already |
| Setup.Settings.SetValue | crates/app/src/setup.rs:646-691 | the door decides as specified for each value and writes that one row or none |
| Setup.Settings.StoreValues | crates/app/src/wiring.rs:787-830 | a page writes, in order and judged by one reading, every value up to the first refusal the user is told of |
| SetupTheorems.AdmittedForm | crates/app/src/setup.rs:646-691 | a stored form is accepted again as it is, and trimmed exactly when the typed text ends clean |
| SetupTheorems.WriteThenRead | crates/app/src/setup.rs:359-463 | an accepted value is read next as it was stored, with origin Setting, if and only if its stored form ends without a blank; all other values and every mark stay |
| SetupTheorems.AcceptedAgain | crates/app/src/setup.rs:713-717 | an answer may be left standing: what was stored is accepted again, whatever lies in the root by now |
| SetupTheorems.BothChannelsAgree | crates/app/src/setup.rs:430-463 | an address reads alike from the environment and from the table if and only if it ends clean |
| SetupTheorems.ABlankBehindTheHost | crates/net/src/connection.rs:178-209 | the family for which it does not: any host, a blank, a closing slash |
| SetupTheorems.PageLands | crates/app/src/wiring.rs:787-830 | after a page each value it took reads as stored if and only if it ends clean, and every other value as before |
| SetupTheorems.EveryWalkKeeps | crates/app/src/setup.rs:646-728 | over any pages: what the environment fixes and what is not offered never changes, the marks stand, and no root above data, staging or holding is ever remembered |
| Paging.Hints.Insert | crates/app/src/wiring.rs:257-269 | the newest HINT_MAX rows stay, and numbers ascend until the last one is used up |
| Paging.MergedDescends | crates/app/src/wiring.rs:911-945 | hint rows in front of store rows are one strictly descending list |
| Paging.Log | crates/app/src/wiring.rs:911-945 | a page of the two sources is the filter and take of the one merged list |
| Paging.RowNotice | crates/app/src/event_loop.rs:596-609 | the rows are that page, and "more" holds exactly when an older row exists |
| Paging.PagesDescend | crates/app/src/event_loop.rs:596-609 | paging over a log that changes between pages delivers strictly descending numbers, so no row twice |
| Paging.StayingRowIsDelivered | crates/app/src/event_loop.rs:596-609 | a row that stays is delivered, whatever is inserted or evicted around it |
| Control.Window.Send | crates/app/src/window.rs:173-180 | queued before the page is ready, delivered after |
| Control.Window.IsReady | crates/app/src/window.rs:164-170 | what waited is delivered in order, each once, all of it when no delivery fails, a prefix otherwise |
| Control.PageBehind | crates/app/src/event_loop.rs:339-349 | the page behind the last row shown, appended, makes the first rows of the list |
| Control.EventLoop.AdoptState | crates/app/src/event_loop.rs:508-525 | a wake replaces the list by the newest loaded rows |
| Control.EventLoop.PageReady | crates/app/src/event_loop.rs:330-338 | a page that reports in, or reloads, shows the newest page |
| Control.EventLoop.LoadOlder | crates/app/src/event_loop.rs:339-351 | asked for behind the last row of an unchanged log, the list stays the newest loaded rows |
| Control.EventLoop.CompleteSetup | crates/app/src/event_loop.rs:421-468 | an engine is built exactly when one is waited for, the set-up is complete and its thread starts |
| Control.EventLoop.TakeOver | crates/app/src/event_loop.rs:470-497 | the engine that came up takes over with its own log and a fresh list; one that did not leaves the loop waiting |
| Control.Session | crates/app/src/event_loop.rs:319-525 | over any sequence of events: never two engines, one waited for exactly when there is none, and the page shows the newest loaded rows whenever the log has not changed since the last wake |
| Icons.ColoursOfRow | crates/app/build.rs:299-305 | one row, blue before green before red |
| Icons.MaskOfRow | crates/app/build.rs:311-318 | one mask row as specified bit by bit |
| Icons.Dib | crates/app/build.rs:278-321 | header, colour rows and mask rows from the bottom up |
| Icons.PixelReadsBack | crates/app/build.rs:298-305 | for every image and pixel a reader of the format finds it where the format has it, red and blue swapped |
| Icons.MaskReadsBack | crates/app/build.rs:307-319 | a mask bit is set if and only if the pixel exists and is fully transparent, so padding bits are 0 |
| Icons.DibIsAllOfIt | crates/app/build.rs:278-320 | the header names the width and twice the height, and header, pixels and mask are the whole file |
| Icons.Ico | crates/app/build.rs:229-261 | the table, each entry with its length and running offset, then the images |
| Icons.EachEntrySelectsItsImage | crates/app/build.rs:241-260 | each entry selects exactly its image; the first follows the table, each follows the one before, the last ends the file |
| Identifiers.SidText | crates/cfapi/src/navigation_pane.rs:189-210 | text exactly for a SID of this revision, width of authority and length, and then its fields |
| Identifiers.SidRoundTrip | crates/cfapi/src/navigation_pane.rs:189-210 | a reader of the text recovers exactly the SID's own bytes, whatever follows them |
| Identifiers.ClsidRoundTrip | crates/cfapi/src/navigation_pane.rs:161-168 | a printed GUID has the registry's form and reads back as itself |
| Identifiers.ClsidTextIsOnto | crates/cfapi/src/navigation_pane.rs:161-168 | every text of that form is the text of exactly the GUID it reads as |
| Page.SevenReplacementsAreOne | crates/app/src/window.rs:265-274 | the successive replacements are one simultaneous replacement if neither the template's text nor any part but the catalogue opens a marker; the catalogue may say anything |
| Page.PutFillsItsSlots | crates/app/src/window.rs:265-274 | one replacement fills the slots of its name and leaves everything else alone |
| Page.ASeamOpensAMarker | crates/app/src/window.rs:548-555 | a part without two opening braces is not enough: one at its end opens a marker at the seam |
| Json.DocumentRoundTrip | crates/app/src/message.rs:290-293 | a written document reads back as its signs and strings, whatever the strings hold |
| Json.LineSafeKeepsTheMeaning | crates/app/src/message.rs:294-297 | replacing the two separators by escapes leaves every document's meaning as it was |
| Json.ScriptDelivers | crates/app/src/message.rs:290-299 | the script is one line and the page finds the notice in it as it was |
| PageProtocol.LongestOverMeans | crates/app/src/display.rs:404-418 | the length reported is that of the first value over the limit, and none exactly when all fit |
| PageProtocol.SetupFits | crates/app/src/message.rs:34-68 | seven values at their limit, whatever their characters, stay within both sides of the budget |
| PageProtocol.EveryRequestIsRead | crates/app/src/message.rs:119-136 | a set-up's request, whichever fields it carries and in whatever order, is read as its values, or refused for the first one too long, unless the whole text is |
| PageProtocol.EverySetupArrives | crates/app/src/message.rs:119-136 | a set-up whose values fit arrives as it was typed, in every order of its fields |
| PageProtocol.ThePagesRequestArrives | crates/app/src/view/view.js:398-429 | the request the page sends, all seven fields with the language in front, arrives as it was typed |

## Left out

- Sockets, threads, clocks, files, the SQLite store, the platform's keychain and HTTP: byte streams, maps, a monotone clock and steps stand for them. The finite read schedule ends in `Pending`, which stands for "still waiting".
- Serde beyond strings: messages of the bridge go through an abstract encoder; `PageProtocol` reads the fields of a set-up by name and in any order, passes an unknown field over only if its value is a string or null, and expects the kind in front; surrogate pairs as escapes are not read.
- The engine beyond its enrolment: what it writes into a sink is arbitrary; that an anchored key set only ever takes in keys of its own server (`Starts.Workstation.AdoptKeys`) is assumed, and so is that an offer whose fingerprint agrees with the anchored one comes from that server. A stored key set without an anchor counts as none.
- AcceptBook.EveryRunKeeps: the book is a state machine of thread steps rather than a class with methods, since the property is about interleavings; the bounded wait for an empty book after `close_all` and the wrap of connection numbers at 2^64 are not in it.
- EndToEnd.Transfer: assumes the encoder readable and progress notices within MAX_MESSAGE; offsets travel modulo 2^64, the client's count is unbounded.
- Dialogue.Meet: for a question with a JSON answer; a content request begins with the same `Dialogue.Open`, and goes on as `EndToEnd.Transfer`. Reading the rendezvous file and connecting are not part of this model; HELLO and WELCOME are within the handshake's limit, as a secret of fixed length makes them.
- EndToEnd.WholeAnswerIsDelivered: for contents and offsets below 2^64 and a final notice within MAX_MESSAGE.
- Starts.Life: an effective address is never blank, since a configuration with an empty one does not start (crates/app/src/setup.rs:294-302). A device enrolled before the seal existed is not in it.
- Setup.CheckRoot: how a path splits into components, whether it is absolute, and which directories are occupied are parameters; so are the default places and the system's language. The enrolment code is never stored and is not part of the resolution here.
- Control.Session: the log can be read and every delivery succeeds there; a failing delivery is in `Control.Window.IsReady` alone. That the page replaces or appends its rows as told is assumed of `view.js`. Lists are no longer than a machine word counts.
- Paging.Hints.Insert: numbers saturate at the largest 64-bit one after 2^62 rows, and are distinct up to there.
- Paging.Log: the store's page is the filter and take of its own descending list; the store is not part of this model beyond that.
- Vault.SystemVault.Read: the mapping of keychain errors to vault errors is one error, "not reachable".
- Icons.Dib: for images within the 32-bit arithmetic of the writer; PNG encoding, the drawing itself and the sizes chosen are parameters of `Icons.Ico`.
- Icons.EachEntrySelectsItsImage: for files below 4 GiB, beyond which the writer's 32-bit fields wrap.
- Setup.Settings.StoreValues: the finished configuration, the list of missing values and the wizard's view are further readings of the same resolution and are not modelled.
- The registry entries of the navigation pane beside SID and CLSID, the mail baskets of `intake.rs`, catalogue and menu texts, the tray and the command line: tables and platform calls that would only add easy members.
