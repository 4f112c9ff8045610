# A verified model of the email network service

The service sends and fetches mail over UDP. Its three parts are modelled here in Dafny, and proved correct where they
are, or exactly as far as they are:

- **RDT 3.0**, the reliable transport: stop-and-wait with one bit, five attempts for each send, one dispatcher per
  socket that routes ACKs to waiting senders and data to one queue.
- **SMTP**: a client that cuts a message into chunks, and a server that finds command lines and messages in whatever
  packets come, and drives a session through five states.
- **Mailboxes and POP3**: a metadata file changed under one lock per user, by writes that are staged and then put in
  place in one step; and sessions in which messages are numbers, deletions are marks, and QUIT carries them out.

## How it is built

Bytes on the wire are `seq<bv8>` in the transport. Above it, octets and characters are `char`.

| files | contents |
|---|---|
| `Crc32`, `RdtPacket` | the packet format with a real CRC-32 |
| `RdtSteps` | the steps of a sender and a receiver as functions |
| `RdtLink`, `RdtTheorems` | one sender and its receiver over two channels, in every interleaving, and what all runs keep |
| `RdtNet`, `RdtProjection` | any number of hosts with raw datagrams, shared queues and ACK tables, and why each pair runs the two-party protocol |
| `RdtFailure` | a send that loses every packet |
| `RdtDispatcher`, `RdtSender`, `RdtReceiver` | the classes, proved against those functions |
| `Wrappers`, `Sequences`, `Text` | options and outcomes; flattening and addressing; searching, lines, stripping, words |
| `TextLaws`, `Utf8` | what the string operations amount to, without their definitions; the octets of a text |
| `Mailbox`, `FileSystem`, `MailboxWriter`, `MailboxReader`, `StorageManager` | the store; the file system records each state the disk passes through |
| `StorageRuns`, `StorageListings` | threads and locks, step by step; what they are told, from the log alone |
| `Outbox` | the senders and receiver bits that both servers keep for their clients |
| `Pop3Session`, `Pop3Runs`, `Pop3Server` | commands as functions; whole sessions with concurrent delivery; the handlers |
| `Pop3Lines` | commands as the lines of text a client writes |
| `Pop3FarEnd`, `Pop3Client` | the server as a client sees it; the client |
| `SmtpSession`, `SmtpPackets`, `SmtpFraming`, `SmtpServer` | commands as functions; packets; the terminator; the handlers with their shared buffers |
| `SmtpCommands`, `SmtpLines`, `SmtpStages` | the client's command lines; command lines of any form; the order of commands, and a conversation word for word |
| `SmtpDelivery` | whom a message reaches |
| `SmtpFarEnd`, `SmtpClient` | the server as a client sees it; the client |

The methods of a class are proved against functions of the session or state, and the theorems are about those
functions, or about machines whose steps they are.

## Findings

Each is a theorem below, with the exact condition under which the code does what one expects, and a case in which it
does not.

- `send` that returns True after an earlier failed `send` of other data may not have delivered its payload: the failed
  send leaves the bit as it was. It has on every network if and only if all sends that failed since the last True
  offered the same payload (`TrueMeansDeliveredIff`, `HollowTrue`).
- The checksum detects every burst of four bytes in one part of a packet, but not every one that crosses from one part
  into another. Damage goes unnoticed exactly if the change to the checksum field is the CRC residue of the change to
  the rest (`UnnoticedIff`, `UnnoticedAcross`).
- A message arrives cut short exactly if it contains CRLF.CRLF, or ends with CRLF and a dot (`FoundOnceIff`,
  `OtherwiseCutShort`).
- After HELO in mid-transaction, or a rejected message, mail goes to the stale recipient in front: it reaches the user
  of its own transaction if and only if the earliest recipient not cleared is that user (`ReachesItsOwnIff`,
  `Misdelivered`). If that earliest recipient has no account, nothing is accepted any more until RSET
  (`StuckUntilReset`).
- If reading the metadata fails during a write, all earlier messages drop out of the listing; they stay exactly if it
  was read or was empty (`WriteEmail`, `EntersOrEmpties`).
- `get_all_messages` that gives up in the middle returns nothing, but the messages it had marked are gone. On a
  reliable disk it returns what it hides if and only if all texts listed can be carried, or the first is empty
  (`GetAllMessages`, `EmptySecond`, `LosesTheFirst`). A text that is not ASCII makes it wait for ever, and so do wrong
  credentials, which stop the server; a text that is a lone dot is hidden, and nothing is returned.
- A message that is not ASCII fails to encode only after DATA, so the client's QUIT is taken for message text and the
  session stays; when nothing is lost, it stays if and only if both addresses are good and the message is not ASCII
  (`SendEmail`).
- LIST's first line counts marked messages: it is the number of lines that follow if and only if no listed message is
  marked (`ListHeaderCountsMarked`).
- Bytes that follow DATA or RSET in one packet without a closing CRLF are lost; nothing is lost if and only if every
  packet in which they replace the buffer ends with CRLF (`CutsDoNotMatterIff`, `TailLost`, `LosingCut`).

## Assumptions

- Channels lose, repeat and damage datagrams but keep their order. Damage is one burst of at most four bytes to a
  datagram, in one of its three parts, and a damaged datagram is not damaged again.
- One `send` at a time on each sender. A run of the transport ends when `reset_state` is called for the peer.
- Packets of one SMTP session are processed one at a time, in the order of arrival; the thread pool at
  email-network-service/src/smtp/smtp_server.py:174 does not see to this.
- `get_lock` is one step. Generated file names are new. `os.replace` is one step.
- A `FileSystem` is reliable or not: on a reliable one every read and write succeeds, otherwise any of them may fail. In
  `StorageRuns` and `Pop3Runs` metadata is read and stored without failure; in `Pop3Client` reads may fail unless the
  far end is reliable, except in QUIT.
- During a POP3 session nobody else deletes from its mailbox (section 4 of RFC 1939 asks for a lock, which the server
  does not take), and the session has one QUIT.
- `SmtpClient.SendEmail` starts without a session. A send that returns has arrived, which `PhaseSafety` and
  `TrueMeansDeliveredIff` justify, as the client stops at the first send that fails. Replies may be lost, in which case
  the client may wait for ever.
- No reply to `Pop3Client` is lost. Its session may have been left open by an earlier client, which starts a new one.

## Model

| member | source | states |
|---|---|---|
| `RdtPacket.BurstDetected` | email-network-service/src/rdt/rdt_packet.py:52-90 | Wherever one error burst of up to four bytes falls in a valid packet of any length (within the sequence and type bytes, the checksum field or the payload), `unpack_and_validate` returns None; follows from CRC-32 itself, computed bit by bit over the reflected polynomial of section 8 of RFC 1952 |
| `RdtPacket.UnnoticedIff` | email-network-service/src/rdt/rdt_packet.py:61-78 | Damage of any kind and extent that keeps the length goes unnoticed if and only if the change to the checksum field equals the CRC residue of the change to the rest; the condition depends on what is changed alone |
| `RdtPacket.UnnoticedAcross` | email-network-service/src/rdt/rdt_packet.py:61-78 | Such damage in every valid packet with four bytes of payload: a certain burst of four bytes across the end of the checksum field is never noticed |
| `RdtPacket.SingleByteDetected` | email-network-service/src/rdt/rdt_packet.py:61-78 | Changing any single byte of any valid packet makes it invalid |
| `Crc32.UpdateInjective` | email-network-service/src/rdt/rdt_packet.py:14-22 | Feeding the same bytes to two different registers leaves them different: each CRC-32 step is a bijection |
| `Crc32.BurstChangesCrc` | email-network-service/src/rdt/rdt_packet.py:14-22 | Two byte strings of any one length that differ, but only within four consecutive places, have different checksums |
| `Crc32.CrcOfDifference` | email-network-service/src/rdt/rdt_packet.py:14-22 | How the checksum changes depends on the bytes changed alone: the CRC is linear up to its constant |
| `Crc32.OwnCrcLeavesConstant` | email-network-service/src/rdt/rdt_packet.py:14-22 | For all data, the register after the data and its own checksum, low byte first, is 0xDEBB20E3: this fixes the start value and the final complement |
| `Crc32.CheckValues` | email-network-service/src/rdt/rdt_packet.py:14-22 | The checksum of the nine characters 123456789 is 0xCBF43926, the published check value; that of no data is 0 |
| `RdtPacket.Layout` | email-network-service/src/rdt/rdt_packet.py:25-42 | On the wire: the number, 0 for data or 1 for an ACK, the checksum of the packet with zeros in the checksum's place, high byte first, and the payload |
| `RdtPacket.EmptyPacket` | email-network-service/src/rdt/rdt_packet.py:25-46 | The data packet with number 0 and no payload, byte for byte: 00 00 B1 C2 A1 A3 |
| `RdtPacket.RoundTrip` | email-network-service/src/rdt/rdt_packet.py:25-90 | For every sequence number 0 to 255, kind and payload, unpacking a made packet gives them back |
| `RdtPacket.AcceptedIsMade` | email-network-service/src/rdt/rdt_packet.py:61-86 | An accepted byte string is what `make_packet` builds from its parsed fields if and only if its type byte is 0 or 1; other type bytes are read as data |
| `RdtTheorems.PhaseSafety` | email-network-service/src/rdt/rdt_sender.py:33-71 | In every run with losses, duplicates and sends that give up after five attempts without toggling the bit: each finished phase delivered exactly one payload, one offered in that phase; the phase in progress at most one; a send returns True only for a phase that delivered |
| `RdtTheorems.OneChangeOfBit` | email-network-service/src/rdt/rdt_receiver.py:49-74 | In every reachable state the data on the way (channel and queue) and the ACKs on the way each hold at most one change of bit, placed according to the sender's bit and the expected bit |
| `RdtTheorems.DeliveredIsSubsequence` | email-network-service/src/rdt/rdt_receiver.py:39-74 | The payloads yielded are an in-order subsequence of the payloads offered, failed sends included |
| `RdtTheorems.FailureFreeDelivers` | email-network-service/src/rdt/rdt_sender.py:43-59 | Until a send fails, the payloads yielded are the payloads sent, in order, but for at most the one in progress |
| `RdtTheorems.RefinesFifo` | email-network-service/src/rdt/rdt_sender.py:38-59 | Every step of a failure-free run is a step of a reliable FIFO queue, or leaves it alone |
| `RdtTheorems.TrueMeansDeliveredIff` | email-network-service/src/rdt/rdt_sender.py:55-71 | True from `send` means that this very payload was delivered, on every network, if and only if every failed send since the last True offered the same payload |
| `RdtTheorems.HollowTrue` | email-network-service/src/rdt/rdt_sender.py:70-71 | Otherwise there is a run in which `send` returns True and the receiver got the payload of an earlier, failed send instead |
| `RdtProjection.StepFollows` | email-network-service/src/rdt/rdt_dispatcher.py:59-104 | With any number of hosts, one shared queue and one shared ACK table per host, each step is, for every sender and its receiver, one step of the two-party protocol or none |
| `RdtProjection.EveryPairRunsTheProtocol` | email-network-service/src/rdt/rdt_dispatcher.py:59-128 | In every run of the whole network what each sender and its receiver see is a run of the two-party protocol |
| `RdtProjection.NetworkDelivery` | email-network-service/src/rdt/rdt_receiver.py:39-74 | So delivery is safe for every pair in every interleaving of losses, duplicates and damage, which `BurstDetected` turns into loss: one payload per finished phase, in order, of those offered |
| `RdtProjection.NetworkFailureFree` | email-network-service/src/rdt/rdt_sender.py:33-71 | And until a send of that pair fails, exactly what was sent, but for the one in progress |
| `RdtFailure.AnySendCanFail` | email-network-service/src/rdt/rdt_sender.py:33-71 | In every state of the network, a free sender can be given data and lose all of it: after exactly five packets the call fails, with the bit as it was, nothing delivered and nothing left on the way |
| `RdtProjection.NoListenerSurvives` | email-network-service/src/rdt/rdt_dispatcher.py:107-120 | In every reachable state an entry of `_ack_listeners` belongs to an attempt in progress with that peer and number, and is its event: none outlives its attempt |
| `RdtProjection.AckWakesItsAttempt` | email-network-service/src/rdt/rdt_dispatcher.py:90-99 | An ACK with the awaited number that is routed while an attempt waits sets the very event it waits on, and no other |
| `RdtProjection.AttemptsHaveTheirOwnEvents` | email-network-service/src/rdt/rdt_dispatcher.py:107-113 | Attempts in progress with different peers wait on different events |
| `RdtProjection.NewAttemptWaitsAfresh` | email-network-service/src/rdt/rdt_sender.py:46-49 | A new attempt waits on an event that no earlier ACK has set |
| `RdtDispatcher.Dispatcher.RegisterAckWaiter` | email-network-service/src/rdt/rdt_dispatcher.py:107-113 | A new, unset event is entered for (host, port, seq); nothing else changes |
| `RdtDispatcher.Dispatcher.UnregisterAckWaiter` | email-network-service/src/rdt/rdt_dispatcher.py:115-120 | The entry is removed if it is there |
| `RdtDispatcher.Dispatcher.Dispatch` | email-network-service/src/rdt/rdt_dispatcher.py:66-79 | One datagram does to the table, the events and the queue what the network model's routing step does |
| `RdtDispatcher.Dispatcher.ListenLoop` | email-network-service/src/rdt/rdt_dispatcher.py:59-88 | So do all datagrams in order |
| `RdtDispatcher.Dispatcher.GetDataPacket` | email-network-service/src/rdt/rdt_dispatcher.py:123-128 | The oldest queued packet is taken, or None when there is none |
| `RdtSender.RdtSender.Send` | email-network-service/src/rdt/rdt_sender.py:33-71 | For any datagrams arriving during the attempts: the same packet is sent once per attempt up to the first acknowledged one, at least once and at most five times; True and a toggled bit if one was acknowledged in time, ConnectionError after exactly five and the same bit if none; the table is as before |
| `RdtSender.OutcomeIsAttempts` | email-network-service/src/rdt/rdt_sender.py:43-71 | The outcome of a call is the sender's micro-steps of the protocol model, run one after the other |
| `RdtReceiver.RdtReceiver.Answer` | email-network-service/src/rdt/rdt_receiver.py:46-74 | One packet: the ACK sent, the payload yielded and the next expected bit are those of the protocol step, for this client alone |
| `RdtReceiver.RdtReceiver.StartReceiving` | email-network-service/src/rdt/rdt_receiver.py:39-74 | All queued packets of all clients are answered in order |
| `RdtReceiver.ClientsDoNotInterfere` | email-network-service/src/rdt/rdt_receiver.py:49-70 | Whatever other clients' packets are queued, one client's expected bit, ACKs and deliveries are those of its own packets alone |
| `RdtReceiver.RdtReceiver.ResetState` | email-network-service/src/rdt/rdt_receiver.py:76-79 | The client starts over at 0, the others stay |
| `MailboxWriter.MailboxWriter.WriteEmail` | email-network-service/src/mailbox/mailbox_writer.py:109-231 | In every state the disk passes through while a message is written, whatever fails: the metadata is wholly the old or wholly the new, each entry has its complete file, and other mailboxes are untouched; afterwards the message is stored or not, with one new entry if its metadata write succeeded; then every earlier entry is kept, in its place, if and only if the metadata could be read or was empty; on a reliable disk it is stored, entered after all earlier entries and with its exact size |
| `MailboxWriter.MailboxWriter.SaveMetadata` | email-network-service/src/mailbox/mailbox_writer.py:75-103 | The same for replacing the metadata |
| `MailboxWriter.MailboxWriter.MarkMessageAsDeleted` | email-network-service/src/mailbox/mailbox_writer.py:233-258 | The same for flagging a message; exactly its flag is set, if it is there and the metadata could be read and stored, as on a reliable disk they can; recorded sizes stay exact |
| `Utf8.OctetsCounted` | email-network-service/src/mailbox/mailbox_writer.py:208-208 | The size recorded is the number of octets of the text in UTF-8, encoded bit by bit as section 3 of RFC 3629 says: one to four octets to a character |
| `Utf8.EncodeAllInjective` | email-network-service/src/mailbox/mailbox_writer.py:170-176 | No two texts have the same octets |
| `Utf8.OctetsAsciiIff` | email-network-service/src/mailbox/mailbox_writer.py:208-208 | It is at least the number of characters, equal to it if and only if the text is ASCII, and 0 if and only if the text is empty |
| `Pop3FarEnd.WrittenIsOk` | email-network-service/src/mailbox/mailbox_writer.py:200-226 | So what the writer enters on a reliable disk meets what the POP3 client goes by: a recorded size is 0 exactly if the text read back is empty |
| `MailboxWriter.EntersOrEmpties` | email-network-service/src/mailbox/mailbox_writer.py:200-226 | What a metadata write enters keeps every earlier entry if the old metadata was read; after a failed read over a mailbox that is not empty the new message alone is listed, and all earlier ones drop out |
| `FileSystem.FileSystem.CrashAndRestart` | email-network-service/src/mailbox/mailbox_writer.py:75-94 | Any state passed through is a state in which the next operation can start with the same guarantees |
| `FileSystem.FileSystem.WriteTemp` | email-network-service/src/mailbox/mailbox_writer.py:170-176 | Staging leaves metadata and mailbox alone, and in every state it passes through, hence after a crash, and after an error, the staging file holds some prefix of the text; the whole text if it succeeds |
| `FileSystem.FileSystem.ReplaceMeta` | email-network-service/src/mailbox/mailbox_writer.py:94-94 | Replacing metadata.json is one step |
| `FileSystem.ListedIsComplete` | email-network-service/src/mailbox/mailbox_writer.py:185-226 | In every such state each listed message has a complete file with the text it was written with: no entry dangles |
| `MailboxReader.MailboxReader.ListMessages` | email-network-service/src/mailbox/mailbox_reader.py:99-131 | The visible entries in the order of arrival, and their total size |
| `MailboxReader.MailboxReader.ReadMessage` | email-network-service/src/mailbox/mailbox_reader.py:150-174 | The text of the file in text mode, or None |
| `TextLaws.NewlinesLaw` | email-network-service/src/mailbox/mailbox_reader.py:158-160 | Text mode turns every CRLF, CR or LF into LF and keeps everything else |
| `Mailbox.ListingOne` | email-network-service/src/mailbox/mailbox_reader.py:99-131 | A visible entry is listed with its own name, size and UID |
| `Mailbox.PutExisting` | email-network-service/src/mailbox/mailbox_writer.py:200-226 | Entering a name that is there replaces the entry in its place |
| `StorageManager.StorageManager.GetLock` | email-network-service/src/mailbox/storage_manager.py:82-97 | One lock per lower-case name, made on first use, the same ever after, and no two names share one |
| `StorageManager.StorageManager.SaveEmail` | email-network-service/src/mailbox/storage_manager.py:102-147 | The user's lock is taken once and free again afterwards; in between, what the writer does |
| `StorageManager.StorageManager.ListMessages` | email-network-service/src/mailbox/storage_manager.py:152-192 | The same for the listing |
| `StorageManager.StorageManager.DeleteEmail` | email-network-service/src/mailbox/storage_manager.py:281-324 | The same for flagging a message |
| `StorageManager.StorageManager.GetMessageContent` | email-network-service/src/mailbox/storage_manager.py:194-238 | The same for the text of a file |
| `StorageRuns.Linearizable` | email-network-service/src/mailbox/storage_manager.py:119-147 | For every interleaving of saves, deletes and listings by any threads on any mailboxes, step by step: each user's metadata, all results, and the value each thread is about to return with, are those of running the operations one after another in the order in which they took that user's lock |
| `StorageRuns.OneInside` | email-network-service/src/mailbox/storage_manager.py:124-124 | No two threads work on one mailbox at the same time |
| `StorageRuns.NoSaveIsLost` | email-network-service/src/mailbox/storage_manager.py:128-147 | The entry of a completed save is there from then on |
| `StorageRuns.NoDeleteReverts` | email-network-service/src/mailbox/mailbox_writer.py:233-258 | A deleted flag, once set, stays set |
| `StorageListings.ListingIsVisible` | email-network-service/src/mailbox/mailbox_reader.py:99-131 | After any saves and deletes under fresh names the listing is exactly the messages saved and not deleted later, each with its name, size and UID, in the order of the saves |
| `StorageListings.ResultsFromTheLog` | email-network-service/src/mailbox/storage_manager.py:152-192 | So in every interleaving a listing returns exactly the messages whose save took the lock before it and no delete of which did so in between; and a delete finds its message if and only if it had been saved |
| `Pop3Session.StatAgreesWithList` | email-network-service/src/pop3/pop3_server.py:138-160 | STAT's count and total are the number and the size sum of LIST's lines, on every mailbox and with any messages marked |
| `Pop3Session.ListHeaderCountsMarked` | email-network-service/src/pop3/pop3_server.py:155-160 | LIST's first line counts marked messages too: it equals the number of lines that follow if and only if no listed message is marked |
| `Pop3Session.ListOneAgreesWithList` | email-network-service/src/pop3/pop3_server.py:149-170 | LIST n answers with the line that LIST has for n, and refuses n if it has none |
| `Pop3Session.SameNumbersAccepted` | email-network-service/src/pop3/pop3_server.py:162-209 | With non-empty ASCII texts, LIST n, RETR n and DELE n accept the same numbers, those in range and not marked |
| `Pop3Runs.NumbersHold` | email-network-service/src/pop3/pop3_server.py:149-218 | Over any session with any mail stored in between, a number names the same file from the beginning to QUIT, and every marked number stays in range |
| `Pop3Runs.ExactDeletion` | email-network-service/src/pop3/pop3_server.py:211-218 | After QUIT the mailbox lists what it listed before without exactly the marked messages, followed by the mail that came since, even between two deletions of QUIT (section 6 of RFC 1939) |
| `Pop3Runs.GoneIffMarked` | email-network-service/src/pop3/pop3_server.py:196-218 | The message a number stood for at any moment is gone after QUIT if and only if that number is among the marked ones |
| `Pop3Runs.QuitStaysInRange` | email-network-service/src/pop3/pop3_server.py:214-218 | No deletion of QUIT looks outside its listing |
| `Pop3Runs.OnlyThePasswordOpens` | email-network-service/src/pop3/pop3_server.py:105-136 | A session acts on a mailbox only if there was a point in it at which PASS gave the password of the user then named, who is its user still |
| `Pop3Server.Pop3Server.CmdUSER` | email-network-service/src/pop3/pop3_server.py:105-116 | State and replies after USER are those of the session function |
| `Pop3Server.Pop3Server.CmdPASS` | email-network-service/src/pop3/pop3_server.py:118-136 | The same for PASS; a wrong password forgets the user |
| `Pop3Server.Pop3Server.CmdSTAT` | email-network-service/src/pop3/pop3_server.py:138-147 | The same for STAT, over the listing as the disk yields it: the true one, or an empty one after a failed read on a disk that is not reliable |
| `Pop3Server.Pop3Server.CmdLIST` | email-network-service/src/pop3/pop3_server.py:149-170 | The same for LIST, with its loop over the listing |
| `Pop3Server.Pop3Server.CmdRETR` | email-network-service/src/pop3/pop3_server.py:172-194 | The same for RETR, with its refusals and the text that fails to encode |
| `Pop3Server.Pop3Server.CmdDELE` | email-network-service/src/pop3/pop3_server.py:196-209 | The same for DELE: exactly the accepted number is marked |
| `Pop3Server.Pop3Server.CommitDeletions` | email-network-service/src/pop3/pop3_server.py:213-218 | Deleting by name in a listing made once hides exactly the marked messages if nothing fails, as on a reliable disk nothing does, and no others if something does; a number outside the listing stops the server before anything is deleted |
| `Pop3Server.Pop3Server.CmdQUIT` | email-network-service/src/pop3/pop3_server.py:211-223 | QUIT: the deletions in a transaction, then one reply, after which the client's sender is dropped and its bit at the receiver forgotten; the server stops before USER, and on a reliable disk otherwise exactly if a marked number is out of range |
| `Pop3Server.ReliableQuit` | email-network-service/src/pop3/pop3_server.py:211-223 | On a reliable disk QUIT stops the server exactly without a user, or in a transaction with a marked number outside the listing, and then nothing has changed; otherwise exactly the marked messages drop out of the listing, in a transaction, and no file and no other mailbox is touched |
| `Pop3Server.ReliableReplies` | email-network-service/src/pop3/pop3_server.py:138-209 | On a reliable disk every command is answered, and changes the session, by what is on the disk |
| `Pop3Lines.UserLine` | email-network-service/src/pop3/pop3_server.py:105-116 | In every letter case, a packet that is USER, a blank, a word and CRLF: an existing user is remembered as written and answered +OK, any other is refused |
| `Pop3Lines.PassLine` | email-network-service/src/pop3/pop3_server.py:118-136 | The same for PASS: the word opens the mailbox if it is the user's password, and otherwise he is forgotten |
| `Pop3Lines.StatLine` | email-network-service/src/pop3/pop3_server.py:138-147 | The same for STAT: the number and total size of the unmarked messages |
| `Pop3Lines.ListLine` | email-network-service/src/pop3/pop3_server.py:149-160 | The same for LIST: count, a line for each unmarked message, a dot |
| `Pop3Lines.ListOneLine` | email-network-service/src/pop3/pop3_server.py:161-170 | The same for LIST and a number: the size of that message, if it is there and not marked |
| `Pop3Lines.RetrLine` | email-network-service/src/pop3/pop3_server.py:172-194 | The same for RETR and a number: the length, text and dot of that message, or the refusals of missing, marked, empty and unencodable ones; the session stays as it is |
| `Pop3Lines.DeleLine` | email-network-service/src/pop3/pop3_server.py:196-209 | The same for DELE and a number: exactly that number is marked, if it is there and not marked |
| `Pop3Lines.NotANumberLine` | email-network-service/src/pop3/pop3_server.py:149-209 | LIST, RETR and DELE refuse a word that is no number |
| `Pop3Lines.NoArgumentLine` | email-network-service/src/pop3/pop3_server.py:105-194 | USER and RETR without a word are refused |
| `Pop3Lines.RefusedLine` | email-network-service/src/pop3/pop3_server.py:105-209 | USER and PASS are refused in a transaction, STAT, LIST, RETR and DELE before it |
| `Pop3Lines.QuitLine` | email-network-service/src/pop3/pop3_server.py:211-223 | The same for QUIT: one answer, and the session stays |
| `Pop3Lines.OnlyQuitDeletes` | email-network-service/src/pop3/pop3_server.py:91-103 | No line with another first word changes a mailbox |
| `Pop3Lines.UnknownLine` | email-network-service/src/pop3/pop3_server.py:91-103 | Any other first word is answered -ERR Unknown command |
| `Pop3Server.Pop3Server.ServePacket` | email-network-service/src/pop3/pop3_server.py:70-103 | One packet: a greeting with the first, then the replies to its lines in order (what each line of text means is stated by the lemmas of `Pop3Lines`), each over the disk as it then is; only QUIT touches a mailbox, a sender or a bit, and no other client's session, sender or bit changes |
| `TextLaws.SplitLinesLaw` | email-network-service/src/pop3/pop3_server.py:84-90 | The lines of a packet are its pieces between CRLFs, the last one included: joined by CRLF they give it back, and none contains CRLF |
| `TextLaws.SpaceIff` | email-network-service/src/pop3/pop3_server.py:92-97 | White space is tab, line feed, vertical tab, form feed, carriage return, the four separators and the blank |
| `TextLaws.StripLaw` | email-network-service/src/smtp/smtp_server.py:276-287 | White space around a text is taken off, and nothing else |
| `TextLaws.DecodeLaw` | email-network-service/src/pop3/pop3_server.py:84-90 | Octets above 127 are dropped from a packet and all others kept |
| `TextLaws.WordsLaw` | email-network-service/src/pop3/pop3_server.py:92-97 | White space before a word is skipped, and a word reaches to the next white space |
| `Pop3FarEnd.ServerEnd.SignOff` | email-network-service/src/pop3/pop3_server.py:211-223 | QUIT as the client sees it, with mail arriving between its deletions: the session closes with one answer if it has a user, and otherwise the server stops |
| `Pop3Client.Pop3Client.Authenticate` | email-network-service/src/pop3/pop3_client.py:52-58 | In any session: it succeeds exactly in a session not yet authorized and with the password of an existing user, and then the mailbox is open; otherwise it raises and the session has no user it had not before; marks stay |
| `Pop3Client.Pop3Client.Stat` | email-network-service/src/pop3/pop3_client.py:60-66 | In any session: the count and total of what is not marked in the listing the server saw; an error outside a transaction |
| `Pop3Client.Pop3Client.List` | email-network-service/src/pop3/pop3_client.py:68-80 | In any session: the numbers and sizes of what is not marked; the reply loop ends with no reply left over; an error outside a transaction |
| `Pop3Client.Pop3Client.Retr` | email-network-service/src/pop3/pop3_client.py:82-93 | For any number and text: the stripped text; an error if the number is refused or the text empty or unreadable; waiting for ever if the text is not ASCII; and for a text that is a lone dot, the empty text, with the closing dot left over for the next command to read |
| `Pop3Client.Pop3Client.Dele` | email-network-service/src/pop3/pop3_client.py:95-98 | For any number and with any replies left over: the server marks the number if it accepts it, and the client goes by the next reply to be read, whatever that one answers |
| `Pop3Client.Pop3Client.Quit` | email-network-service/src/pop3/pop3_client.py:100-107 | Nothing happens if not connected; otherwise the mailbox is closed if the session has a user, and if it has none the server stops and the client waits for ever |
| `Pop3Client.Pop3Client.GetAllMessages` | email-network-service/src/pop3/pop3_client.py:118-143 | While mail keeps arriving, for all texts and credentials: QUIT hides the first k messages and all others stay listed, and what is returned is exactly those k, in order, or nothing. On a reliable disk with right credentials the texts listed decide which: all is fetched, or it gives up at an empty text having hidden what came before, or never returns at one that is not ASCII, or gives up having hidden a lone dot too; it returns exactly what it hides if and only if every text listed can be carried or the first one is empty. With wrong credentials it never returns and the server stops |
| `Pop3Client.EmptySecond` | email-network-service/src/pop3/pop3_client.py:127-143 | Whenever the second of two or more messages is empty and the first can be carried, the drain returns nothing and hides the first |
| `Pop3Client.LosesTheFirst` | email-network-service/src/pop3/pop3_client.py:127-143 | Such a drain of a mailbox with the texts "a" and "": whatever arrives meanwhile, it returns nothing, and the message "a" is no longer listed |
| `Pop3Client.DrainRepeatedly` | email-network-service/src/pop3/pop3_client.py:118-143 | `get_all_messages` any number of times, with mail arriving during and between the drains: together they hide a prefix of all messages there were and came, and all others are listed; the emails of all drains together are the texts of that prefix, none lost and none repeated, if and only if no drain hid messages and returned nothing; on a reliable disk none does if every text can be carried |
| `SmtpSession.AlwaysOk` | email-network-service/src/smtp/smtp_server.py:299-340 | In every session waiting for RCPT or DATA or reading data has a sender, and waiting for DATA or reading data has a recipient |
| `SmtpSession.RecipientsAreThere` | email-network-service/src/smtp/smtp_server.py:228-231 | So "550 No recipients" is never answered |
| `SmtpSession.RecipientsTracked` | email-network-service/src/smtp/smtp_server.py:319-340 | `rcpt_to` is exactly the addresses of the RCPT lines accepted since creation, RSET or the last stored message, computed from the lines and replies alone |
| `SmtpSession.MailGoesToTheFirst` | email-network-service/src/smtp/smtp_server.py:228-257 | A message is stored exactly when it is answered "250 OK: Message accepted", and for the user of the earliest of those addresses |
| `SmtpSession.UserIsLocalPart` | email-network-service/src/smtp/smtp_server.py:233-236 | The user looked up for local@domain is local, without regard to case, whatever the domain |
| `TextLaws.LowerLaw` | email-network-service/src/smtp/smtp_server.py:234-236 | Capitals A to Z become the small letters, and every other character stays |
| `TextLaws.UpperLaw` | email-network-service/src/smtp/smtp_server.py:284-290 | Small letters a to z become capitals, and every other character stays: verbs are compared so |
| `TextLaws.SameNameIff` | email-network-service/src/smtp/smtp_server.py:234-236 | Two names are one if and only if they differ in nothing but the case of letters; only names without capitals are left as they are |
| `SmtpStages.StageTracked` | email-network-service/src/smtp/smtp_server.py:298-343 | Where a session stands is computed from its commands and replies alone: hello, accepted MAIL, accepted RCPT, accepted DATA, and the end of a message move it on, and RSET sets it back |
| `SmtpStages.BadSequenceIff` | email-network-service/src/smtp/smtp_server.py:305-336 | "503 Bad sequence" answers MAIL before hello or after an accepted RCPT, RCPT unless after an accepted MAIL, DATA unless after an accepted RCPT, and nothing else |
| `SmtpStages.Conversation` | email-network-service/src/smtp/smtp_server.py:217-353 | A whole conversation, for all good addresses and messages, to a user with an account: the seven replies word for word, and the message stored for the user before the @ |
| `SmtpStages.RepliesAsSent` | email-network-service/src/smtp/smtp_server.py:217-346 | Every reply as it is sent |
| `SmtpSession.OneRecipientAtData` | email-network-service/src/smtp/smtp_server.py:299-340 | When DATA is accepted there is exactly one recipient if and only if neither HELO or EHLO nor a message that was not stored came in between with a recipient already given |
| `SmtpDelivery.ReachesItsOwnIff` | email-network-service/src/smtp/smtp_server.py:217-257 | A message that is stored reaches the user of the RCPT of its own transaction if and only if the earliest recipient not yet cleared is that same user; it does if nothing interrupted the transaction |
| `SmtpDelivery.Misdelivered` | email-network-service/src/smtp/smtp_server.py:299-336 | For any two recipients the first of whom has an account: HELO, MAIL, RCPT to the first, HELO, MAIL, RCPT to the second, DATA is a legal session, and its message is stored for the first |
| `SmtpDelivery.StuckUntilReset` | email-network-service/src/smtp/smtp_server.py:228-257 | Once the earliest recipient has no account, no message of the session is accepted any more, whoever it is for, until RSET |
| `SmtpPackets.OneReplyEach` | email-network-service/src/smtp/smtp_server.py:138-353 | Over any packets of a client, through any number of sessions: the replies are one greeting for each session opened, one reply for each complete command line and one for each completed message, in order; after QUIT a new session begins |
| `SmtpPackets.GreetedWhen` | email-network-service/src/smtp/smtp_server.py:160-170 | The greeting comes with the first packet and with the first one after QUIT, and with no other |
| `SmtpPackets.CutsDoNotMatterIff` | email-network-service/src/smtp/smtp_server.py:265-296 | However a command stream is cut into packets, even through a CRLF, the lines dispatched and their effect are those of the whole stream, and the buffer holds its tail, if and only if every packet in which DATA or RSET replaces the buffer ends with CRLF |
| `SmtpPackets.NothingIsInvented` | email-network-service/src/smtp/smtp_server.py:265-296 | The lines dispatched and the buffer hold as many bytes as came in if nothing was lost, and fewer otherwise, never more |
| `SmtpPackets.TailLost` | email-network-service/src/smtp/smtp_server.py:266-340 | In any session: what follows RSET in the same packet and has no CRLF yet is gone |
| `SmtpPackets.LosingCut` | email-network-service/src/smtp/smtp_server.py:265-340 | A stream of RSET and NOOP cut before the last CRLF: 250 and 500 where the stream in one go is answered 250 and 250 |
| `Text.LinesOfConcat` | email-network-service/src/smtp/smtp_server.py:266-275 | Lines can be taken off as bytes come in: those complete so far, then those of the rest with the new bytes |
| `Text.LinesRejoin` | email-network-service/src/smtp/smtp_server.py:270-275 | Lines and tail make up the stream, and none contains CRLF |
| `SmtpFraming.FoundOnceIff` | email-network-service/src/smtp/smtp_server.py:202-215 | For every message and every cut of message and CRLF.CRLF into packets, the server finds exactly this message, once, with the last packet, if and only if the message neither contains CRLF.CRLF nor ends with CRLF and a dot; there is no dot-stuffing as in section 4.5.2 of RFC 5321 |
| `SmtpFraming.OtherwiseCutShort` | email-network-service/src/smtp/smtp_server.py:207-209 | Otherwise the first message the server finds is a proper beginning of it |
| `SmtpFraming.ArrivesWholeIff` | email-network-service/src/smtp/smtp_server.py:207-215 | What arrives of a message is a beginning of it, and all of it if and only if it is framed in that way |
| `SmtpServer.SmtpServer.CmdMAIL` | email-network-service/src/smtp/smtp_server.py:305-317 | Session and reply after MAIL are those of the session function |
| `SmtpServer.SmtpServer.CmdRCPT` | email-network-service/src/smtp/smtp_server.py:319-328 | The same for RCPT |
| `SmtpServer.SmtpServer.CmdDATA` | email-network-service/src/smtp/smtp_server.py:330-336 | The same for DATA, which gives the session new, empty buffers |
| `SmtpServer.SmtpServer.CmdRSET` | email-network-service/src/smtp/smtp_server.py:338-340 | RSET makes the session like new, buffers included |
| `SmtpServer.SmtpServer.CmdQUIT` | email-network-service/src/smtp/smtp_server.py:345-353 | QUIT replies, removes the session, drops the client's sender and resets its bit at the receiver |
| `SmtpLines.SyntaxIff` | email-network-service/src/smtp/smtp_server.py:276-287 | A line is read if and only if its ASCII part is a word of letters, with white space around it or not, and after white space an argument of one line; otherwise it is a syntax error |
| `SmtpLines.HelloLine` | email-network-service/src/smtp/smtp_server.py:298-303 | HELO and EHLO, in every letter case and with any argument, are answered in every state and keep sender and recipients |
| `SmtpLines.MailLine` | email-network-service/src/smtp/smtp_server.py:305-317 | MAIL, in every letter case: 503 in the wrong state; with FROM: and an address, that is the sender; otherwise 500 |
| `SmtpLines.RcptLine` | email-network-service/src/smtp/smtp_server.py:319-328 | RCPT, in every letter case: 503 in the wrong state; with TO: and an address, that is added to the recipients; otherwise 500 |
| `SmtpLines.AddressIff` | email-network-service/src/smtp/smtp_server.py:33-39 | An address is found in a path if and only if the path is that address, with an @ in it, in angle brackets or not, and white space around |
| `SmtpLines.DataLine` | email-network-service/src/smtp/smtp_server.py:330-336 | DATA, in every letter case: 354 with a recipient, otherwise 503 |
| `SmtpLines.RsetLine` | email-network-service/src/smtp/smtp_server.py:338-340 | RSET, in every letter case, makes the session like new |
| `SmtpLines.NoopLine` | email-network-service/src/smtp/smtp_server.py:342-343 | NOOP changes nothing |
| `SmtpLines.QuitLine` | email-network-service/src/smtp/smtp_server.py:345-353 | QUIT ends the session |
| `SmtpLines.OtherLine` | email-network-service/src/smtp/smtp_server.py:276-296 | Any other word is answered 500 Command unrecognized, and a line that is not read 500 Syntax error |
| `SmtpServer.SmtpServer.HandleLine` | email-network-service/src/smtp/smtp_server.py:276-296 | Each verb reaches its handler |
| `SmtpServer.SmtpServer.HandleCommandStream` | email-network-service/src/smtp/smtp_server.py:265-296 | The loop keeps to the buffer it started with while handlers give the session another: every complete line is dispatched, and the tail stays in the old buffer only |
| `SmtpServer.SmtpServer.HandleDataStream` | email-network-service/src/smtp/smtp_server.py:202-215 | Bytes are collected until the terminator shows, even across packets; then the message before it is delivered and the session is ready for MAIL |
| `SmtpServer.SmtpServer.FinalizeMessage` | email-network-service/src/smtp/smtp_server.py:217-263 | The delivery, with its rejections: exactly one reply; stored, as one new file and entry in one mailbox, exactly if accepted, and then the recipients are cleared. For a first recipient local@domain: accepted, if nothing in the e-mail library or on the disk fails, exactly if there is an account for local, without regard to case, and then the message is the new last entry of that user's mailbox; refused with 550 if there is none |
| `SmtpServer.SmtpServer.ServePacket` | email-network-service/src/smtp/smtp_server.py:138-200 | One packet, one client at a time: a greeting with the first, then the replies; only this client's session, buffers, sender and bit change, and only a completed message touches the mailboxes |
| `Outbox.PostedInOrder` | email-network-service/src/smtp/smtp_server.py:72-85 | What a server hands to the senders is the replies in order, for this client alone |
| `Outbox.PostedFor` | email-network-service/src/smtp/smtp_server.py:345-353 | No other client's sender or bit changes; this client keeps a sender unless its last reply was the one to QUIT, and its bit is forgotten exactly if there was one |
| `SmtpFarEnd.CodeArrives` | email-network-service/src/smtp/smtp_client.py:266-285 | The client reads off the wire the code of every reply |
| `SmtpFarEnd.CodeIff` | email-network-service/src/smtp/smtp_client.py:273-282 | A code is read if and only if the reply, white space aside, begins with three digits |
| `SmtpFarEnd.MessageParts` | email-network-service/src/smtp/smtp_client.py:221-221 | For a subject that keeps to its line the message gives back both parts: its first line is "Subject: " and the subject, its second is empty, and what follows the first CRLF CRLF is the body |
| `SmtpClient.SmtpClient.Connect` | email-network-service/src/smtp/smtp_client.py:124-167 | After NOOP, greeting and reply there is a new session, and no reply is left over |
| `SmtpClient.SmtpClient.SendMailFrom` | email-network-service/src/smtp/smtp_client.py:184-194 | With an address that keeps to its line: if nothing is lost, MAIL is accepted if and only if the address is ASCII with an @ and no line feed |
| `SmtpClient.SmtpClient.SendRcptTo` | email-network-service/src/smtp/smtp_client.py:196-206 | The same for RCPT, and a positive reply means that this address is the only recipient |
| `SmtpClient.WhichAreInOneGo` | email-network-service/src/smtp/smtp_client.py:216-237 | A message is sent in one go if it is framed, or if it fits one chunk |
| `SmtpClient.SmtpClient.SendChunks` | email-network-service/src/smtp/smtp_client.py:216-237 | However large the chunks, for a message sent in one go, framed or not: the server has stored nothing before the last chunk, and with it at most what arrives of this message |
| `SmtpClient.SmtpClient.SendData` | email-network-service/src/smtp/smtp_client.py:208-242 | A positive reply means that exactly what arrives of this message is stored, for the recipient's user |
| `SmtpClient.SmtpClient.SendEmail` | email-network-service/src/smtp/smtp_client.py:86-122 | True means that the server stored what arrives of this message for the recipient's user, exactly once, which is all of it if and only if it is framed; for a recipient local@domain and a framed message that is, for the user local, "Subject: " and the subject, an empty line, and the body; whatever the result, it stored nothing else, and not twice; if nothing is lost and nothing fails, the result is True if and only if both addresses are ASCII with an @ and no line feed, the message is ASCII, and the recipient has an account, and afterwards the server has no session of the client, unless both addresses are good and the message is not ASCII: then QUIT is taken for message text |

## Left out

- Sockets, threads, clocks, logging, configuration, `to_string` and the simulation: time-outs, arrivals and failures are
  nondeterministic steps. Datagrams are assumed to fit the 4096-byte receive buffer.
- Liveness: whether retries ever get through. The POP3 server blocked in `send` while its client is blocked in `send`
  shows that the exchange promises none.
- The SMTP reaper of idle sessions, and two packets of one session processed at the same time.
- MIME parsing and rendering: parsing may fail, rendering is an arbitrary function from the message bytes to the stored
  text. JSON is an encoding that keeps order and contents.
- `UserManager` beyond the lower-cased look-up and the comparison of passwords.
- `int()` of a word is an arbitrary function; numbers in POP3 replies are kept as numbers, not as decimal text, and some
  error texts are shortened. The POP3 client hands over commands; what their text does is stated in `Pop3Lines`.
  Commands that span two POP3 packets are not put together by the server, and are not in the model either.
- A POP3 reply that is not delivered: the handlers record what they hand to the sender. A `ConnectionError` while
  sending a text ends the server's loop in the program.
- `get_uid` and `get_message_uid`, which nothing here calls.
- A second QUIT in one POP3 session.
- RdtSender.RdtSender.Send: the datagrams that arrive during each attempt are given beforehand, as a list for each attempt, so the method itself does not interleave with other threads; the network model does.
- SmtpClient.SmtpClient.SendEmail: says nothing about addresses that contain CRLF, which the server takes for several lines, nor about a message with an early terminator of which a part goes out in another chunk, which the server takes for commands; `SmtpFraming.OtherwiseCutShort` tells where such a message ends.
- SmtpClient.SmtpClient.SendMailFrom: says nothing about an address that contains CRLF.
- SmtpClient.SmtpClient.SendRcptTo: says nothing about an address that contains CRLF.
- SmtpClient.SmtpClient.SendChunks: says nothing about a message that is not sent in one go.
- SmtpClient.SmtpClient.SendData: says nothing about a message that is not sent in one go.
- Pop3Client.Pop3Client.GetAllMessages: on a disk that is not reliable, which texts make it give up is not determined; what it hides and returns still is related as stated.
