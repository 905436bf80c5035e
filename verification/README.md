# bsflite in Dafny

bsflite is a terminal client for AOL's OSCAR instant-messaging protocol, on top of a protocol
library (`imcomm/`). This project models what the two compute, from octets on the wire to messages
on the screen, and proves what they are for:

- **MD5** (`Md5Rfc`, `Md5Process`, `Md5`, `Login`): the streaming implementation gives the digest of
  RFC 1321 for every way of cutting a message into pieces. `Md5Rfc` is the reference, written from
  sections 3.1 to 3.5 of the RFC; `Md5Process` is the unrolled compression, `Md5` the carry buffer,
  bit count and padding.
- **Wire formats** (`Bytes`, `Packets`, `Exchange`, `Tlvs`, `Builders`, `Im`, `Ssi`): packets and TLVs read back what was
  written, on big-endian and little-endian hosts; an instant message arrives as it was sent; the
  buddy list on the server keeps names and ids distinct.
- **Streams** (`Receive`, `Flap`, `Senders`, `Batches`, `Numbering`, `Handles`, `Queues`): the two receivers
  deliver the same parse of the octet stream; the three senders (one frame, a batch, a queue) are
  compared frame for frame and octet for octet; and request ids and sequence numbers are followed over
  runs in which writes fail.
- **Rosters** (`Names`, `Lists`, `LibraryRoster`, `ClientRoster`, `Directory`, `Session`, `Events`): the library's
  singly linked list and the client's sorted doubly linked list are on the heap, linked and unlinked
  in place; over every run of events they record the same.
- **Texts** (`WordWrap`, `Netspeak`, `Html`, `CStrings`, `Keys`, `Paste`): word wrap, the netspeak rewriter, the
  HTML stripper against the keyboard's escaping, and the batching of pasted lines.
- **Answers while away** (`AutoResponse`): once for each sender, and never to an automatic message.

The network is a sequence of octets that arrives in arbitrary chunks; a write is one whole success
or failure, as an oracle says; screen width, maximum message size and the keys typed are parameters.
Octets are integers below 256; machine words wrap where the C code's do.

Where the code falls short of what one would expect of it, the model follows the code and the
contract says exactly when:

- A batch differs from single sends when it ends a reported idle period: the report comes after the
  whole batch (`Senders.BatchIsSingles`, `Batches.BatchReorders`). Every caller of snac_addToMulti in
  `imcomm/snac.c` passes 0 for updateidle, so this happens only to other callers.
- A paused connection swallows single SNACs and lets a batch of SNACs through (`Batches.TogetherIsOnes`).
- The queueing build differs from immediate sending when it ends a reported idle period with frames
  waiting: they overtake the report (`Queues.QueueIsPrefix`, `Queues.QueueReorders`).
- A failed write of a SNAC uses up its request id (`Senders.RunInSequence`, `Batches.LostIdSkips`), and a
  failed batch also its sequence numbers (`Numbering.NumbersInStep`, `Handles.Handle.PerformAll`,
  `Handles.SkippedNumber`). A failed write of a queued frame loses the frame (`Queues.KeepsEverything`).
- A raw value of 65536 octets or more moves the reading cursor by too little
  (`Exchange.WritesReadBack`, `Exchange.LongValueMisleads`).
- The location packet is too short when no profile is set (`Builders.LocationBody`).
- An empty TLV 4 in a sender's user information makes any message look automatic (`Im.MessageArrives`).
- Id 0 is given out when all of 1 to 65535 are taken (`Ssi.BuddyList.NextId`).
- A buddy whose name is all spaces is kept under an empty name, which the reader skips
  (`Ssi.ListReadBack`).
- A buddy added here is removed by whatever group the memory held (`Ssi.BuddyList.AddAndRemove`).
- The guards of the key handler accept some keys at lengths where the line of 511 characters has no
  room for their escaped form (`Keys.GuardsAreLoose`, `Keys.QuoteOverruns`).
- Erasing an escaped character takes back a part of it only (`Keys.ErasingTakesBack`).
- A pasted line that fills the buffer leaves its line break behind, which reads as a blank line
  (`Paste.ReadsLine`); a blank line that overflows a message is dropped (`Paste.BlankLine`), and
  erasing in an empty line cancels the paste (`Paste.GetLine`).

## Model

| member | source | states |
|---|---|---|
| `Md5Process.ConstantsAreRfc` | imcomm/md5.c:67-131 | The macros T1 to T64, half of them written as complements, are the table of section 3.4 of RFC 1321. |
| `Md5Rfc.FChooses` | imcomm/md5.c:207 | F has the bits of y where x has ones, and those of z where x has zeros. |
| `Md5Rfc.GChooses` | imcomm/md5.c:235 | G has the bits of x where z has ones, and those of y where z has zeros. |
| `Md5Rfc.HIsParity` | imcomm/md5.c:263 | H is the parity of its three words, bit by bit. |
| `Md5Rfc.IComplements` | imcomm/md5.c:291 | I has the complement of the bits of y where x has ones or z has zeros, and those of y elsewhere. |
| `Md5Rfc.PlusWraps` | imcomm/md5.c:208-210 | Adding words wraps: the sum, less 2^32 when it does not fit. |
| `Md5Process.RotateLeftIsRotate` | imcomm/md5.c:200 | The shift-or macro rotates: it equals n single-bit rotations, for every word and amount below 32. |
| `Md5Process.Set` | imcomm/md5.c:208-210 | One SET, in whatever registers it is written, is step i of the table-driven loop of RFC 1321, whose four registers rotate. |
| `Md5Process.Round1` | imcomm/md5.c:207-228 | The 16 unrolled steps of round 1 are steps 0 to 15 of the loop. |
| `Md5Process.Round2` | imcomm/md5.c:235-256 | The 16 unrolled steps of round 2 are steps 16 to 31. |
| `Md5Process.Round3` | imcomm/md5.c:263-284 | The 16 unrolled steps of round 3 are steps 32 to 47. |
| `Md5Process.Round4` | imcomm/md5.c:291-312 | The 16 unrolled steps of round 4 are steps 48 to 63. |
| `Md5Process.Rounds` | imcomm/md5.c:202-312 | All 64 unrolled steps compute the 64-step loop of RFC 1321, for every state and block. |
| `Md5.LoadWords` | imcomm/md5.c:149-198 | The word loads of a little-endian and of a big-endian host give the same 16 words, low-order octet first. |
| `Md5.Md5State.Process` | imcomm/md5.c:134-323 | One block: the registers become the RFC's compression of their old values. |
| `Md5.CountAdvances` | imcomm/md5.c:341-350 | The two-word bit count with its manual carry goes from 8n to 8(n+k) modulo 2^64, for every n and every k an int32_t can hold. |
| `Md5.OffsetIsLength` | imcomm/md5.c:340 | The position in the carry buffer, read off the low count word alone, is the length modulo 64, however often the count has wrapped. |
| `Md5.CountWords` | imcomm/md5.c:386-389 | The count words are the low and high half of the bit length, and the modular expression gives the RFC's padding length. |
| `Md5.Md5State.constructor` | imcomm/md5.c:325-333 | A new state holds the empty message. |
| `Md5.Md5State.Append` | imcomm/md5.c:335-371 | For every cut of a message: the registers fold all full blocks so far, the carry buffer holds the tail, the count is 8 times the length modulo 2^64, and the message grows by exactly the data (not at all for nbytes <= 0). |
| `Md5.Md5State.SaveLength` | imcomm/md5.c:385-387 | Message, padding and the eight octets saved are the padded message of sections 3.1 and 3.2. |
| `Md5.Md5State.Finish` | imcomm/md5.c:373-394 | The digest is the one-shot digest of RFC 1321 of everything appended. |
| `Login.HashPieces` | imcomm/md5.c:325-394 | Any sequence of pieces, appended one by one, gives the digest of their concatenation. |
| `Login.LoginHash` | imcomm/bos_signon.c:589-596 | Three appends give the MD5 of key, password and constant, in that order. |
| `Login.Answer` | imcomm/bos_signon.c:577-662 | A login key is answered with a full packet that reads as the twelve login TLVs, the second of them the MD5 of key, password and constant; other subtypes get no login packet. |
| `Bytes.SwappedStore16` | imcomm/packet.c:171-176 | A 16-bit value, swapped on a little-endian host and stored as the host stores it, is in network order. |
| `Bytes.SwappedStore32` | imcomm/packet.c:191-196 | The same for 32 bits. |
| `Bytes.SwappedLoad` | imcomm/packet.c:231-234 | Loading as the host loads and swapping on a little-endian host reads network order. |
| `Packets.Packet.Put` | imcomm/packet.c:204-212 | A write succeeds exactly when it fits; it then appends its octets, and otherwise changes nothing. |
| `Packets.Packet.Add16` | imcomm/packet.c:164-180 | Appends the two octets in network order under either endianness, exactly when they fit. |
| `Packets.Packet.Add32` | imcomm/packet.c:184-200 | The same for four octets. |
| `Packets.Packet.Get16` | imcomm/packet.c:227-238 | Reads a network-order value at the cursor and steps past it, under either endianness. |
| `Packets.Packet.Get32` | imcomm/packet.c:242-253 | The same for four octets. |
| `Packets.Packet.GetRaw` | imcomm/packet.c:257-280 | Returns the octets at the cursor, which moves by the length truncated to 16 bits. |
| `Packets.ReadsBack` | imcomm/packet.c:144-280 | In the octets of a sequence of fields, those where the k-th field starts decode to it, for every k. |
| `Exchange.WriteAll` | imcomm/packet.c:144-212 | Any sequence of pkt_add calls succeeds as a whole if and only if everything fits, and then has written the fields one after the other. |
| `Exchange.ReadAll` | imcomm/packet.c:214-280 | Any sequence of pkt_get calls within the packet reads each field from where the calls before it left the cursor. |
| `Exchange.CursorInStep` | imcomm/packet.c:257-280 | The k-th read happens where the k-th field starts, if and only if no raw field before it has 65536 octets or more. |
| `Exchange.WritesReadBack` | imcomm/packet.c:144-280 | Whatever fields of given shapes are written, they are read back, if and only if no raw field of 65536 octets or more is followed by a field that takes any room. |
| `Exchange.LongValueMisleads` | imcomm/packet.c:257-280 | The input that shows it: behind 65536 octets of 7, an octet 5 is read as 7. |
| `Exchange.WriteAndRead` | imcomm/packet.c:41-280 | Written on a host of one byte order and read on one of the other: all calls succeed if and only if the fields fit, and then, shapes permitting, the fields are read back. |
| `Tlvs.ParsePrint` | imcomm/snac.c:732-756 | Every TLV list that fits is recovered from its octets. |
| `Tlvs.PrintParse` | imcomm/snac.c:732-756 | Printing what was parsed gives the octets back. |
| `Tlvs.Split` | imcomm/snac.c:726-765 | tlv_split ends on every well-formed list of at most 65535 octets, 16-bit cursor and all, and returns the list those octets are the print of. |
| `Tlvs.CountTlvs` | imcomm/snac.c:711-722 | count_tlv is the number of TLVs in the list. |
| `Tlvs.FourTo32` | imcomm/snac.c:784-794 | Reads four octets in network order on either host. |
| `Tlvs.TwoTo16` | imcomm/snac.c:798-808 | Reads two octets in network order on either host. |
| `Builders.LoginBody` | imcomm/bos_signon.c:600-658 | The twelve login TLVs fill exactly the reserved length and are read back by the TLV parser. |
| `Builders.LocationBody` | imcomm/snac.c:452-519 | All parts fit if and only if a profile is set; then they fill the packet exactly and are read back as the location TLVs. |
| `Im.SendMessage` | imcomm/snac.c:1018-1043 | The outgoing message fills exactly the reserved length, and a reader finds in it the cookie, channel 1, the length of the recipient's name in front of the name, and the TLVs of the message. |
| `Im.TextOfOutgoing` | imcomm/snac.c:1031-1038 | The text found through the nested TLVs of an outgoing message is the message. |
| `Im.GetIncomingIm` | imcomm/snac.c:812-875 | What is delivered, and what happens to idle and sign-on times, for every readable packet, with or without a text. |
| `Im.TimesNext` | imcomm/snac.c:825-845 | The sign-on times are the values of the TLVs 3, in order, in network order. |
| `Im.MessageArrives` | imcomm/snac.c:812-875 | The TLVs that were written for a message, relayed behind any user information without a message TLV, are read as its text behind its sender; the automatic flag arrives set if and only if it was set or the user information holds an empty TLV 4. |
| `Im.SendAndReceive` | imcomm/snac.c:812-1043 | From one host to another: what SendMessage writes names the recipient, and, relayed behind any such user information, is delivered with sender, text and flag, whatever the byte order of either host. |
| `Receive.Extend` | imcomm/imcomm.c:465-504 | What more octets add to a stream is what they add to its incomplete rest: no unit is lost, doubled or reordered by where a stream is cut. |
| `Receive.ByteReceiver.Octet` | imcomm/imcomm.c:552-600 | After every octet of every stream of non-empty payloads, the byte-at-a-time machine has delivered exactly the parse of the stream so far, and holds its incomplete rest. |
| `Receive.Socket.RecvAll` | imcomm/imcomm.c:485-499 | However the network chops it up, the receive loop fills the buffer with the next octets and takes no more. |
| `Receive.Socket.ReceivePacket` | imcomm/imcomm.c:466-502 | One header and payload: the head of the stream, and the rest stays. |
| `Receive.Socket.ReceiveAll` | imcomm/imcomm.c:465-504 | For every stream of non-empty payloads and every chopping, the whole-packet loop delivers the parse of the stream: the same units as the byte-at-a-time machine. |
| `Flap.WireParses` | imcomm/flap.c:54-61 | The receivers' parse of any frames sent is those frames in order, headers with their numbers included, and nothing is left over. |
| `Flap.UnitsSay` | imcomm/flap.c:57-61 | In the k-th frame of any stream sent, a receiver reads the mark, the channel, the number n + k modulo 65536, the length and the payload. |
| `Flap.WireOfParses` | imcomm/flap.c:54-61 | The same for frames with any numbers: a receiver reads each frame with the number it was given. |
| `Flap.WireInjective` | imcomm/flap.c:54-61 | Different frames never look the same on the wire. |
| `Senders.BatchIsSingles` | imcomm/flap.c:135-234 | A batch leaves the handle as single sends of its frames do, if and only if it is harmless: unless the handle reports idle time and a frame other than that report follows the one that ends it. Everything but the order of frames agrees always. |
| `Senders.BatchOnWire` | imcomm/flap.c:135-234 | The same, read off the octets on the wire. |
| `Senders.SnacSays` | imcomm/snac.c:262-267 | In a SNAC that was built, a receiver reads its family, subtype, flags of zero, request id and data. |
| `Senders.IdleSays` | imcomm/imcomm.c:778-798 | The idle flag says whether the idle time exceeds 600 seconds (between 1 and 600 it stays as it was), and a report is sent exactly when the flag changes and the connection is not paused. |
| `Senders.SingleSays` | imcomm/flap.c:44-106 | A frame that gets out and counts as activity ends a reported idle time, with the report behind it. |
| `Senders.MultiSays` | imcomm/flap.c:135-234 | A batch that gets out and has any activity in it does so behind all of its frames. |
| `Senders.RunAccounts` | imcomm/snac.c:235-273 | Over any run of sends, batches, idle reports and pauses, with writes that fail: request ids are used one after the other, and the SNACs on the wire carry exactly those whose writes succeeded, modulo 2^32. |
| `Senders.RunInSequence` | imcomm/snac.c:235-273 | Over any such run, the k-th SNAC carries request id k modulo 2^32 if and only if no SNAC gets out after ids have been lost (other than a multiple of 2^32 of them). |
| `Senders.CleanRun` | imcomm/snac.c:235-273 | When no write fails, none is lost. |
| `Numbering.NumbersInStep` | imcomm/flap.c:94-234 | Of the sequence numbers used in a run, each either lost or on a frame: the k-th frame carries 0x1000 + k modulo 65536, for every k, if and only if no frame gets out after a number of losses that is not a multiple of 65536. |
| `Numbering.SlotsAreFrames` | imcomm/flap.c:94-234 | Single frames, SNACs and reports use a sequence number exactly when they get out, whichever of their writes fail; a failed batch uses one for each of its frames and sends none. |
| `Numbering.BatchesSucceed` | imcomm/flap.c:94-234 | As long as no batch fails, no number is lost, whatever other writes fail. |
| `Numbering.InStepOnWire` | imcomm/flap.c:54-61 | The numbers are in step if and only if a receiver, parsing the octets, reads them in step. |
| `Batches.TogetherIsOnes` | imcomm/snac.c:235-273 | A batch of SNACs leaves the handle as snac_send for each of them does, ids and frames included, if and only if the connection is not paused and, while idle time is reported, nothing but requests worded like the report follows the first activity. |
| `Batches.BatchReorders` | imcomm/flap.c:135-234 | An input where a batch differs: a frame behind the activity that ends the idle time is sent before the report, and singly after it. |
| `Batches.LostIdSkips` | imcomm/snac.c:254-273 | An input out of sequence: after a SNAC whose write failed, the first SNAC on the wire carries id 1. |
| `Handles.Handle.SendFrame` | imcomm/flap.c:54-97 | One frame: the wire grows by the frame with the next number, or, when the write fails, nothing changes. |
| `Handles.Handle.FlapSend` | imcomm/flap.c:44-106 | The same with the idle report that activity causes: the whole new state, whichever of the two writes fail, and how many writes there were. No number is left out. |
| `Handles.Handle.SetIdleTime` | imcomm/imcomm.c:778-798 | Idle time is reported when it first exceeds 600 seconds and when it returns to 0, and only then; a report that fails still changes the flag and uses up a request id. |
| `Handles.Handle.SnacSend` | imcomm/snac.c:254-273 | A SNAC takes the next request id, which a failed write uses up; a paused connection swallows the SNAC and keeps the id. |
| `Handles.Handle.BuildBatch` | imcomm/flap.c:182-195 | The packet of a batch is, octet for octet, the wire's continuation by its frames, wrapping numbers included. |
| `Handles.Handle.SendMulti` | imcomm/flap.c:164-234 | A batch in one write has the effect of Multi; a failed write leaves the wire alone but uses up the numbers of the batch, and the handle goes on from there. |
| `Handles.Handle.SnacMulti` | imcomm/snac.c:235-250 | A batch of SNACs, numbered one after the other as they are added; a failed write uses up all their ids. |
| `Handles.Handle.PerformAll` | imcomm/flap.c:44-234 | Whatever is done with a new handle, and whichever writes fail: its state is that of the run; its SNACs are in sequence under exactly the condition of RunInSequence; and the k-th frame that a receiver reads off the wire carries 0x1000 + k modulo 65536, for every k, if and only if no frame gets out after numbers have been lost in failed batches (other than a multiple of 65536 of them). |
| `Handles.SkippedNumber` | imcomm/flap.c:182-234 | The input that shows it: a batch of one SNAC fails, and the first frame on the wire carries 0x1001. |
| `Queues.QueuedHandle.FlapSend` | imcomm/flap.c:324-345 | Queueing appends to the queue and sends nothing. |
| `Queues.QueuedHandle.SetIdleTime` | imcomm/imcomm.c:778-798 | In this build a report of idle time goes to the end of the queue. |
| `Queues.QueueIdleSays` | imcomm/imcomm.c:778-798 | In the queueing build the flag changes in the same way, and the report goes to the end of the queue, as no activity. |
| `Queues.QueuedHandle.SendNext` | imcomm/flap.c:239-321 | The head leaves the queue and goes on the wire if the write succeeds; a frame that is activity may queue a report. |
| `Queues.KeepsEverything` | imcomm/flap.c:239-345 | Over any run of submissions, sends whose writes may fail, and changes of idle time, from any queue: frames leave the queue in the order in which they got there, reports included, each once; on the wire are those whose write succeeded, and the queue holds exactly those that have not left it. |
| `Queues.ReportInPlace` | imcomm/flap.c:239-345 | While no write fails, the report of renewed activity comes right behind the frames that were waiting when it was queued. |
| `Queues.QueueIsPrefix` | imcomm/flap.c:239-345 | For every interleaving of submissions and sends without failed writes, and every state to start from: the frames on the wire begin those that sending the same items at once puts there, if and only if the frames that were waiting when the report of renewed activity was queued, and have been sent by now, read like the report. |
| `Queues.QueueOnWire` | imcomm/flap.c:239-345 | The same, read off the octets on the wire, sequence numbers included. |
| `Queues.DrainedIsSingles` | imcomm/flap.c:239-345 | Once the queue is empty, the handle's state is that of immediate sending, if and only if nothing else was waiting; all but the order of frames agrees always. |
| `Queues.QueueReorders` | imcomm/flap.c:289-345 | The input that shows it: on an idle handle, a frame behind the first activity overtakes the report. |
| `Queues.QueuedHandle.Serve` | imcomm/flap.c:239-345 | The handle itself, over any submissions, sends and changes of idle time, whichever writes fail: its state is that of the run with the outcomes of its writes, which are those of the frames that left the queue, one write each; and without failures and changes of idle time, the prefix comparison holds. |
| `Names.SimplifySn` | imcomm/imcomm.c:758-774 | The screen name without spaces, in lower case. |
| `Names.SimplifyAppends` | util.c:13-29 | A name is simplified octet by octet: the simplified form of a concatenation is the concatenation of the simplified forms. |
| `Names.SimplifyOctets` | util.c:18-23 | A space disappears, A to Z become a to z, and every other octet stays. |
| `Names.SimplifyIdempotent` | util.c:13-29 | Simplifying twice is simplifying once. |
| `Names.LessIs` | aim.c:347 | strcmp(a, b) < 0 exactly if, where the two names part, a ends or has the smaller octet. |
| `Names.LessTotal` | aim.c:347 | strcmp's order is total and irreflexive. |
| `Names.LessTransitive` | aim.c:347 | And transitive. |
| `LibraryRoster.Library.Add` | imcomm/imcomm.c:627-660 | Appends a new buddy at the end of the singly linked list, unless the name is there; names stay distinct. |
| `LibraryRoster.Library.UpdateIdle` | imcomm/imcomm.c:664-687 | Changes the idle time of the one buddy of the name, and nothing else. |
| `LibraryRoster.Library.UpdateAway` | imcomm/imcomm.c:691-720 | Changes the away flag of the one buddy of the name, and reports exactly the changes. |
| `LibraryRoster.Library.Delete` | imcomm/imcomm.c:724-754 | Unlinks the one buddy of the name, wherever it stands; the rest keeps its order. |
| `ClientRoster.AscendingInsert` | aim.c:346-378 | Inserting where the loop stops keeps the list ascending. |
| `ClientRoster.StrictInsert` | aim.c:346-378 | For a new name, strictly ascending. |
| `ClientRoster.Roster.Link` | aim.c:340-380 | Whichever of the branches sets the links, the doubly linked list is well formed (next and prev inverse, no cycle, ends null) and has the new buddy at the place found. |
| `ClientRoster.Roster.Unlink` | aim.c:418-435 | The same for taking a buddy out. |
| `ClientRoster.Roster.BuddyOnline` | aim.c:333-391 | The sorted insert: list, order and counter all change by exactly the one buddy. |
| `ClientRoster.Roster.BuddyOffline` | aim.c:409-491 | remove_from_list and buddy_offline: exactly the named buddy leaves, list, order and counter. |
| `ClientRoster.Roster.BuddyIdle` | aim.c:199-230 | Sets idle time, and the idle flag to whether it is 10 or more, for the one buddy. |
| `ClientRoster.Roster.BuddyAway` | aim.c:258-312 | Sets the away flag of the one buddy. |
| `Directory.SameLength` | aim.c:391-491 | Lists of distinct names that record the same have the same length, whatever their order. |
| `Session.Connection.RefreshIdle` | imcomm/imcomm.c:672-679 | An idle time that is known to the library reaches the client through the callback: the rosters keep agreeing. |
| `Session.Connection.RefreshAway` | imcomm/imcomm.c:700-717 | The same for the away flag, which is reported only when it changes. |
| `Session.Connection.Reconnect` | input.c:618-649 | A new connection starts with two empty rosters. |
| `Session.Connection.CountsAgree` | aim.c:391-491 | buddiesonline is the length of both lists. |
| `Events.ReadStatus` | imcomm/snac.c:915-930 | The last idle time and any away class among the TLVs are the reported status. |
| `Events.Announce` | imcomm/snac.c:931-943 | Whether or not the buddy was known, both rosters end up with the reported status for it, and with nothing else changed. |
| `Events.StatusAway` | imcomm/snac.c:915-930 | The announced status is away if and only if some TLV 1 has one of the user classes 0x30, 0x31 and 0x24. |
| `Events.StatusIdle` | imcomm/snac.c:915-930 | The announced idle time is that of the last TLV 4, and 0 without one. |
| `Events.SignOn` | imcomm/snac.c:898-947 | After a sign-on packet its buddy is in both rosters, away if and only if a TLV 1 in it says so, with the idle time of its last TLV 4 (or 0); no other buddy changes. |
| `Events.SignOff` | imcomm/snac.c:879-894 | After a sign-off packet the buddy it names is in neither roster; no other buddy changes. |
| `Events.Forget` | input.c:413-425 | Deleting a buddy takes it out of both rosters. |
| `Events.IncomingMessage` | imcomm/snac.c:825-837 | A message without an empty TLV 4 ends the idle time of its sender, if that buddy is online, in both rosters; nothing else changes in them. |
| `Events.Run` | imcomm/snac.c:812-947 | After every run of sign-ons, sign-offs, messages, deletions and reconnects, the two rosters hold the same names with the same away flags and idle times, the idle flag means 10 or more, the counter is the length, and exactly those names are online that have signed on (or were there) with no sign-off, deletion or reconnect since. |
| `Events.OnlineIs` | imcomm/snac.c:879-947 | Over every run: a name is online if and only if the last event to sign it on or take it away, counting a reconnect, has signed it on. |
| `Events.RecordIs` | imcomm/snac.c:812-947 | Behind its last sign-on, with no departure since, a name has the status that sign-on announced, with an idle time of 0 if and only if it has written since or was not idle. |
| `Events.QuietKeeps` | imcomm/snac.c:812-947 | While a name neither signs on nor leaves, its record changes only in the idle time, which its first message that is not automatic ends. |
| `Ssi.BuddyList.NextId` | imcomm/snac.c:1176-1203 | The search, which ends exactly because some id is free, returns the least positive free id, or 0 when that is the only one left. |
| `Ssi.SomeIdFree` | imcomm/snac.c:1185-1200 | Pigeonhole: a list shorter than 65536 leaves some id free. |
| `Ssi.MergeDistinct` | imcomm/snac.c:565-584 | Reading the server's list keeps names distinct, and ids distinct if its buddies have ids of their own; ids of groups and other items do not matter. |
| `Ssi.BuddyList.AddBuddy` | imcomm/snac.c:1207-1260 | A new name gets the next free id, and the batch of three SNACs with its item; a known name changes nothing and sends nothing. |
| `Ssi.BuddyList.ChangeAll` | imcomm/snac.c:1207-1336 | After any sequence of additions and removals, names and ids are still pairwise distinct, a name is on the list exactly if the last change that names it was an addition (or none does and it was there), and entries that no change names are untouched. |
| `Ssi.BuddyList.AddAndRemove` | imcomm/snac.c:1207-1336 | Adding a new buddy and removing it again leaves the list as it was, and sends the same item octets twice, to add and to remove, if and only if the group, which adding never sets, happens to be 1. |
| `Ssi.BuddyList.GetListAndChange` | imcomm/snac.c:555-1336 | The server's list is read, groups and all, and buddies are added and removed: names and ids are distinct, and the list is as the changes leave what was read. |
| `Ssi.BuddyList.RemoveBuddy` | imcomm/snac.c:1264-1336 | The first buddy of the name leaves the list, and the batch of three SNACs with its item is sent; an unknown name changes nothing and sends nothing. |
| `Ssi.RemovalNamesItem` | imcomm/snac.c:1280-1328 | An entry that was read is removed by the name, group and id the server has for it. |
| `Ssi.RemovalNamesAdded` | imcomm/snac.c:1227-1328 | The octets that remove an entry added here are those that added it, if and only if its group, which adding never sets, happens to be 1. |
| `Ssi.AddThenRemove` | imcomm/snac.c:1207-1301 | Adding a new buddy and removing it again restores the list. |
| `Ssi.BuddyList.GetList` | imcomm/snac.c:555-588 | The reader's list is the merge of the items in the packet, for every packet that prints some items. |
| `Ssi.ListReadBack` | imcomm/snac.c:1245-1251 | Items sent for a list are read back as exactly that list, in group 1, but for members whose name simplifies to nothing. |
| `WordWrap.WordwrapPrint` | out.c:211-265 | What is printed: the lines of Lines for the width screen_cols - offset - 4, all but the first indented by offset. |
| `WordWrap.RenderNext` | out.c:239-260 | Each further line is printed behind the ones before it, with its line break, and behind the indentation unless it is the first. |
| `WordWrap.IndentIs` | out.c:245-249 | The indentation is offset spaces, and nothing for a negative offset. |
| `WordWrap.LinesWrap` | out.c:223-256 | The lines are a wrapping: each fits or is a single word, none holds a line break, and each ends at a separator. |
| `WordWrap.WrapsConserves` | out.c:239-250 | Nothing is lost: the lines with one dropped separator after each but the last are the text. |
| `WordWrap.BreakIsLast` | out.c:229-238 | Each line is as long as it can be: any longer one would break the rules. |
| `WordWrap.LinesAreFewest` | out.c:223-256 | No other wrapping under these rules has fewer lines. |
| `Netspeak.UndoNetspeak` | cleaner.c:48-119 | The rewriting pass writes exactly the clean text, and every write stays within the buffer the sizing pass measured, which it fills. |
| `Netspeak.NewLength` | cleaner.c:52-77 | The sizing pass computes the length of the clean text, for every input. |
| `Netspeak.MatchIsStem` | cleaner.c:57-66 | The comparison of both passes, a table word followed by an end, holds exactly when the text starts with that word as a whole. |
| `Netspeak.WordReplaced` | cleaner.c:88-112 | Every word of the table is replaced, at the end of the text and in front of a space, full stop, comma, question mark or exclamation mark. |
| `Netspeak.OtherWordStays` | cleaner.c:88-115 | Every other word stays as it is. |
| `Netspeak.RestCopies` | cleaner.c:80-115 | What follows a word stays up to the next space, behind which the next word begins. |
| `Netspeak.PlainStays` | cleaner.c:17-44 | No replacement puts a table word at the start of a word. |
| `Netspeak.CleanIdempotent` | cleaner.c:48-119 | Cleaning a clean text changes nothing. |
| `Html.StripHtml` | util.c:38-144 | The one scan writes exactly the text without its markup, into a buffer one longer than the message; it has never written more than it has read. |
| `Html.OpenTag` | util.c:45-91 | Links, line breaks and other tags, link branch and its bounds included. |
| `Html.LinkShows` | util.c:48-79 | A link shows its address in brackets, in whatever mixture of small and capital letters it is written, whatever the address, the rest of its tag and what follows. |
| `Html.BreakShows` | util.c:77-84 | A line break tag reads as a line break, in small or capital letters. |
| `Html.EntityShows` | util.c:94-133 | Each of the five entities reads as its character. |
| `Html.CharacterShows` | util.c:134-138 | Any other character stays, but for line ends, which are dropped. |
| `Html.AmpersandShows` | util.c:94-137 | An ampersand that starts none of the entities stays. |
| `Html.TagDisappears` | util.c:88-98 | Any tag that is neither a line break nor a link with a complete address disappears. |
| `Html.OpenTagDisappears` | util.c:88-98 | Such a tag that never ends takes the rest of the text with it. |
| `Keys.InputLine.Key` | bsf.c:337-446 | A key adds its escaped form, or nothing when the guard for that key says the line is full, except where the guard is loose. |
| `Keys.GuardsAreLoose` | bsf.c:337-446 | The guards accept a key that the line has no room for at exactly these lengths: 508 and 509 for line breaks and angle brackets, 506 and 507 for quotation marks, 507 and 508 for ampersands; a key that fits is always accepted. |
| `Keys.QuoteOverruns` | bsf.c:354-360 | One of them: a quotation mark behind 506 characters. |
| `Keys.InputLine.AddToInputBuf` | bsf.c:51-61 | One character, unless the line has 511. |
| `Keys.InputLine.Erase` | bsf.c:324-336 | Erasing takes back one character, if there is one. |
| `Keys.ErasingTakesBack` | bsf.c:324-446 | Erasing undoes a key if and only if the key added a single character: raw input, or no special character. |
| `Keys.StripEscape` | bsf.c:337-446 | strip_html undoes the escaping: any typed text, with Ctrl-B as line break, is recovered exactly. |
| `Keys.InputLine.TypeAll` | bsf.c:337-446 | Keys typed behind the start of a command, as long as there is room, are read as they were typed. |
| `Paste.GetLine` | input.c:554-586 | The line with its erasures applied, cut where the buffer is full, or -1 for Ctrl-X and for an erasure in an empty line. |
| `Paste.ReadsLine` | input.c:558-583 | A line is read as typed; one that fills the buffer is cut there, and what is left of it, at least its line break, is read as the next line. |
| `Paste.LineEnds` | input.c:562-580 | Either line end ends a line; Ctrl-X cancels the paste, and so does an erasure in an empty line. |
| `Paste.Erasing` | input.c:571-574 | An erasure, by any of the three keys for it, takes back the character before it, unless that filled the buffer. |
| `Paste.InputPaste` | input.c:273-323 | The messages sent for everything typed, up to the '.' or Ctrl-X, each non-empty and of at most maxmsgsize characters. |
| `Paste.RunsFlatten` | input.c:273-323 | The runs behind the messages, in order, are all the typed lines. |
| `Paste.TrimIs` | input.c:307-321 | A message is the join of its run without exactly the blank lines that the run starts with. |
| `Paste.BlankLine` | input.c:299-321 | A blank line adds a line break to the message if and only if there is a message and room for it; else it leaves no trace: while the buffer is empty, and when it overflows it. |
| `Paste.RunsAreGreedy` | input.c:299-306 | A message closes only at a line it has no room for. |
| `Paste.MessageSnoc` | input.c:307-321 | A message is the join of its run by line breaks, and grows by the line and four characters. |
| `AutoResponse.Client.GetMessage` | aim.c:58-126 | A sender is answered exactly when the client is away (and idle, if it is to matter), the message is not automatic and has a text, and no waiting name is the sender's up to spaces and case; a sender whose message has a text is then waiting. |
| `AutoResponse.Client.CompareNicks` | imcomm/imcomm.c:849-864 | Names are compared without spaces and case. |
| `AutoResponse.Client.Enter` | bsf.c:227-241 | Enter clears the waiting list. |
| `AutoResponse.AnswersOnce` | aim.c:87-126 | Over any run, a sender, up to spaces and case, is answered at most once between two clears of the waiting list. |
| `AutoResponse.AnswersWhen` | aim.c:87-126 | In any run, an event is answered if and only if it is a text that is not automatic, the last settings before it say away (and idle, if it is to matter), and no text from the same name has come in since the last clear. |
| `AutoResponse.AnswersExactly` | aim.c:87-126 | Between two clears, a sender who is not waiting is answered exactly once if the first text is not automatic and comes in while the last settings say away, and otherwise not at all; one who is waiting is not answered. |
| `AutoResponse.CountAppend` | aim.c:87-126 | The answers of a run are those of its parts, so that the exact count holds over runs with any number of clears. |
| `AutoResponse.RepliesGoBack` | aim.c:111-114 | Of two clients that write to each other, the one a message is delivered to answers to the other, on its own settings and waiting list, which are the only ones to change. |
| `AutoResponse.AnswersAreToPeople` | aim.c:111-114 | Over any run, no more automatic messages are sent than messages that somebody wrote arrive. |
| `AutoResponse.DeliveriesEnd` | aim.c:87-126 | Two clients that may both be away cannot answer each other endlessly: deliveries are bounded by what is under way and twice what people write. |

## Left out

- Sockets, name lookup, TLS, proxies and the connection half of the login, including the reply that carries the cookie: plumbing around the octet streams modelled here.
- Queues.QueuedHandle.Serve: compares with immediate sending only from an empty queue, and while no write fails and nothing but activity changes the idle time.
- Queues.QueueIsPrefix: takes runs in which no write fails and nothing but activity changes the idle time, as immediate sending of the same frames has no counterpart for the rest; Queues.KeepsEverything covers every run.
- Md5.Md5State.Append: takes data for which offset + nbytes stays below 2^31, since the code adds them as 32-bit signed integers.
- Receive.ByteReceiver.Octet: takes payloads of at least one octet, since the code counts data_pos past a data_len of 0.
- Receive.Socket.ReceiveAll: takes payloads of at least one octet, since the code treats reading 0 octets as a disconnection.
- Receive errors in the middle of a frame, and the disconnection they cause.
- Writes that are short, or that return 0: flap_send and flap_sendMulti disagree on whether a TLS write of 0 is an error; here a write succeeds or fails as a whole.
- Tlvs.Split: is stated for well-formed lists of at most 65535 octets, beyond which the 16-bit cursor of the code wraps; the linked list it builds is a sequence here.
- Readers that trust lengths in a packet: packets are taken to be long enough for what the code reads from them (Im.Readable, Events.Understood), since the code has no branch for those that are not.
- Keys.InputLine.Key: does not say what is in memory after a key that its guard accepts without room for it; its precondition excludes exactly the lengths of Keys.GuardsAreLoose.
- Keys that recall a name, complete one, or toggle raw input, and the parsing of commands.
- Paste.InputPaste: takes a maximum message size of at least 7: with 6 the code reads lines without reading anything, for ever (Paste.NothingRead), and below that its buffer size turns negative.
- Paste.GetLine: does not model the zero that an erasure in an empty line makes the code write in front of its buffer.
- Ssi.BuddyList.AddBuddy: returns its batch of SNACs as requests; Handles.Handle.SnacMulti says how a batch is numbered and sent. The same holds for RemoveBuddy.
- Ssi.BuddyList.ChangeAll: takes lists on which an id is left for every addition, since the code searches for one without end otherwise, and names whose item has a 16-bit length.
- Relinking in the server list (Ssi), the waiting list (AutoResponse) and the send queue (Queues): these linked lists are sequences here; LibraryRoster has the same operations on the heap.
- Screen names and texts with a zero octet, which end a C string early.
- Loops that go on after the one match they can have, in the updates of the library's roster: they stop there in the model.
- Off-the-record messaging, logs, profiles, away-message files and configuration.
- Terminal handling and colours; prettyprint, which wraps each line by itself, and the variants that print to the echo line.
- Several connections at once and the deletion of handles from their list.
- SNAC dispatch, child connections, icons, rate limits and server migration: one-branch effects or disabled code.
- Memory allocation failing, and freeing.
- The derivation of the MD5 constants from sines: the table of the RFC is taken as given.
