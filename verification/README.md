# A verified model of the TFTP server

This project models the session engine of the TFTP server in `src/TFTP.cpp` and proves what it
guarantees end to end, together with three smaller parts of the program: the base64 encoder, the search
for a communication port, and the configuration file loaders.

The server implements RFC 1350 with option negotiation (RFC 2347), the `blksize` and `timeout` options
(RFC 2348, RFC 2349) and `windowsize` (RFC 7440). A session owns a file, a few counters and, for uploads,
an array of window slots; packets and receive timeouts drive it until it ends with an error, with a
finished transfer, or by giving up.

## How it is built

| file | what it holds |
|---|---|
| `Wire.dfy`, `Settings.dfy`, `Sequences.dfy` | datagrams, 16-bit fields, 32-bit wrap-around, the configuration, facts about sequences |
| `Blocks.dfy` | a file cut into numbered blocks; `fread` and `fwrite` at an offset |
| `Request.dfy` | scanning and printing requests, `atoi`, option negotiation |
| `Protocol.dfy` | every handler and one round of the loop as functions on a `State` value; whole runs |
| `WindowLoop.dfy`, `Session.dfy` | the session as a class whose methods follow the C++ handlers statement by statement, each proved equal to its function in `Protocol` |
| `SessionStart.dfy`, `Reception.dfy` | from the bytes of a request to the first state of a transfer, or to the answer that refuses it |
| `Answers.dfy`, `Timing.dfy` | what a running session does with every packet, and how long it waits, told from bytes and clock alone |
| `DownloadLaws.dfy`, `DownloadTotals.dfy`, `UploadLaws.dfy` | laws of runs against any client at all |
| `Histories.dfy`, `Network.dfy`, `DownloadSystem.dfy`, `UploadSystem.dfy`, `UploadLockStep.dfy`, `UploadPlacement.dfy` | server, conforming client, and a network that loses, duplicates and reorders |
| `UploadClimb.dfy`, `UploadLedger.dfy` | how an upload gets anywhere at the least cost, and that none gets there cheaper; how old acknowledgements carry a client past the server |
| `DownloadExact.dfy`, `DownloadReach.dfy`, `DownloadSeeks.dfy`, `UploadExact.dfy`, `UploadHeard.dfy` | the exact conditions under which transfers can be completed, heard of and trusted, for every configuration |
| `DownloadLife.dfy`, `UploadLife.dfy`, `DownloadRecovery.dfy` | exactly what ends a session, that no late or repeated packet does, and that a download can always still be completed |
| `Base64.dfy`, `PortSearch.dfy`, `ConfigFile.dfy` | the three smaller parts |

The chain from code to theorem is: `TftpSession.Session.ThreadDirectComm` leaves exactly the state and the
trace of packets of `Protocol.Run` after `Protocol.Begin`; `SessionStart` shows that an accepted request
leads to the initial states of the laws and of the end-to-end systems; the systems take their server steps
from `Protocol.Step`.

What the outside world decides is a parameter of each event (`Protocol.Env`): the clock, how many `send`
calls succeed before one fails, whether a socket descriptor was obtained, and what opening the file yields.
In the end-to-end systems everything ever sent stays deliverable any number of times, or never is
delivered, and stray packets of kinds the peer does not send may reach the server at any time.

## What is proved

* Downloads, any window size: whatever the network does, the client holds a prefix of the file in whole
  blocks, every DATA packet under way is the true block of its number, and the server's window contains the
  client's position, for files up to 65536 blocks. That the client's data is a prefix holds exactly for these
  and under limits that end every session before block 65536; otherwise the numbers come round and old copies
  are taken for later blocks (`DownloadReach.DownloadSafetyIff`).
* "Transfer done" means a complete download exactly if no base is left from which an acknowledgement short of
  the last block is accepted; two bases are enough to look at (`DownloadExact.DownloadCompleteIff`). With room
  under the limit these are the windows of one block, the files of one block, and the files of more than
  65534 + window blocks, which are never completed (`DownloadExact.EndsEarlyWithRoom`). A download can be
  completed, the server done and the whole file at the client, exactly if the limit has room for the file; past
  65535 blocks, exactly if it can end early (`DownloadExact.CompletionIff`).
* All this is about downloads whose seeks fit an `int`: files that one window holds, sessions with a positive
  limit, and otherwise files whose last block that 16-bit numbers reach begins before byte 2^31, so every file at
  block sizes up to 32768. Exactly in the others a seek can be refused (`DownloadSeeks.OverseekIff`), and then
  resends run on to the end of the file until an empty block cuts the client's copy short
  (`DownloadSeeks.CutShort`, `DownloadSeeks.DoneHoldsFileIff`).
* Uploads with a window of one block: the server's file is always a prefix of the client's, for files of
  every size; a transfer that is done is complete; and a client whose last block was acknowledged can
  rely on it exactly for files up to 65535 full blocks, and under limits of fewer packets
  (`UploadHeard.UploadAcknowledgedIff`).
* Uploads with larger windows: the server's file is the layout determined by the set of stored blocks, with
  zero holes elsewhere (`UploadPlacement.UploadPlaced`), for files of up to 131072 - window blocks, and for
  longer ones under limits with no room for the way to a later block. Exactly beyond that a client
  carried ahead by old acknowledgements can get a block stored under another's number
  (`UploadHeard.MisfiledIff`), and it is written where that other block belongs (`UploadHeard.BlockMisplaced`).
  Nor may a block be stored that is too far to seek; two blocks decide whether one can (`UploadHeard.OverseekIff`).
* An upload can be done at the server exactly if the limit has room for the cheapest way to its last block,
  and, past 65535 blocks, that block's 16-bit number is behind the point where the first acknowledgement
  stands for the next round of numbers (`UploadExact.UploadDoneIff`). That "transfer done" means no hole is
  left holds exactly for windows of one block, for files of one block, and where no upload can be done
  (`UploadExact.UploadCompleteIff`): the acknowledgement clears the slot array (src/TFTP.cpp:537-541), so it
  is not cumulative, and a short block ends the session whatever is missing.
* Whether the client of an upload can ever hear that its last block arrived
  (`UploadHeard.FullyAcknowledgedIff`). Up to 65535 blocks, exactly if the window or the file has one block, the
  last block is not empty, and the limit has room for all packets. So with a larger window and a second block
  it never does; and with a window of one block it never does if the length of the file is a multiple of the
  block size, the empty file included, because the stored length of an empty block is 0, which reads as "not
  received" (src/TFTP.cpp:509, 987), and its acknowledgement carries the number before. In longer files only
  old acknowledgements tell the client so, exactly if the number of the last block can be acknowledged at all.
  Up to 65535 blocks an acknowledged last block always means that every block was stored; past that only where
  it is never acknowledged (`UploadHeard.AcknowledgedStoredIff`).
* Every packet a running session can receive is ignored, only counted, refused with one ERROR packet of a known
  code, or served; which of these is told from its bytes (`Answers.EveryPacketAnswered`). Exactly what ends a
  download or an upload is told likewise (`DownloadLife.DownloadLivesIff`, `UploadLife.UploadLivesIff`). So while
  sends work and the limit has room, no loss, delay, repetition or reordering of the client's packets ends a
  session before it is done (`DownloadLife.NeverCutOff`, `UploadLife.NeverCutOff`), and a download without a limit
  can still be completed from every state it can get into with a resend left
  (`DownloadRecovery.CanStillComplete`).
* A silent client is left alone for the seconds agreed on, resent to at most once in as many, and an upload is not
  given up on before every retry has had them (`Timing.LeftAlone`, `Timing.ResendsTakeTime`,
  `Timing.NotGivenUpEarly`, `Reception.AgreedSecondsPass`).
* A request that is not well-formed is dropped without an answer, because no socket was made yet; one for a file
  that is not listed or does not open is answered with code 1, one with an option that lacks its value with code
  4, and one whose first packets cannot be sent with code 0 (`Reception`).
* A request leads to a running download or upload exactly if it is well-formed, listed, openable, and its first
  packets can be sent within the limit; a client that prints acceptable terms gets a session with just these.
* Against any client: the window base stays within the file, each accepted acknowledgement and each resend
  causes at most one window of DATA (no Sorcerer's Apprentice, section 4.2.3.1 of RFC 1123), the byte counter
  is the sum of what was sent, uploads respect their limit, upload acknowledgements never decrease, wrap or
  pass the highest block received, and an upload with a byte limit ends after a bounded number of events.
* A silent download client is not given up on once two retries are configured, because a resend
  clears the retry counter. Its resends are bounded exactly if fewer are configured, or if there is a byte
  limit and the window is not empty: the empty last block of a file is sent again for ever, whatever the
  limit (`DownloadTotals.ResendsBoundedIff`). A silent upload client is given up on, limit or not: there every
  expired timeout counts (`UploadLaws.SilentUpload`, `UploadLaws.SilentUploadEnds`).
* Requests and option lists survive printing and scanning; the agreed terms are the last acceptable
  proposals, within their bounds whatever the bytes of the request are.
* base64: the in-place encoder equals section 4 of RFC 4648, and a text decodes to `s` exactly when it is
  the encoding of `s`.
* The port walk is a rotation, and a failed search is conclusive exactly when its attempts
  cover the range (`FailureIsConclusiveIff`).
* Configuration: both loaders compute one specification of the file for every file, the single-value loader
  the first of the multi-value loader's values; a key gets back exactly its own values exactly when no other
  key in the file begins with it (`OwnValuesIff`).

## Where the code and its documentation differ

The model follows the code.

* src/config.h:17 promises a disconnect after N retries. For downloads a resend sets the counter back to 0
  (src/TFTP.cpp:632), so the promise holds only for N at most 1.
* src/config.h:11-12 and `MaxFileSizeDownload` (src/config.cpp:144) name a limit for sent bytes that nothing
  reads; downloads are held to the limit for received bytes (src/TFTP.cpp:615).
* src/config.h:21-22 calls `CommPortEnd` the maximum port; the walk never reaches it (src/TFTP.cpp:139). The
  walk starts from the default configuration (src/TFTP.cpp:12), so the first port may lie outside the
  configured range; every later one lies inside it.
* src/TFTP.h:124 says that a window is acknowledged once all its blocks are received; in fact every stored
  block is acknowledged on its own (src/TFTP.cpp:1016-1017).
* A client's ERROR packet is answered with one of the server's own, and code 255, which stands for "no error"
  inside the server (src/TFTP.cpp:841), does not end the session at all (`Answers.ClientAbortsIff`).
* A malformed request sets "illegal operation", but no socket exists to send that from (src/TFTP.cpp:183-193).
* A limit is compared as `unsigned long long`, so a negative one is in effect no limit.
* The product handed to `fseek` is an `int` (src/TFTP.cpp:570, 998). It is modelled as wrapping to 32 bits, a
  negative offset being refused. Where that cannot happen is proved, with the exact condition for downloads and
  for uploads.

## Model

| member | source | states |
|---|---|---|
| Wire.EncodedFields | src/TFTP.cpp:594-596 | reading the opcode, number and payload of a packet gives back what was written, the number modulo 2^16 |
| Wire.EncodeInjective | src/TFTP.cpp:523-524 | packets with 16-bit fields are told apart by their bytes |
| Wire.Wrap32Meaning | src/TFTP.cpp:570 | a product cut to an `int` is the 32-bit number that differs from it by a multiple of 2^32 |
| Blocks.WriteAt | src/TFTP.cpp:993-1002 | a write at an offset replaces those bytes, keeps all others, and fills a gap with zeros |
| Blocks.OffsetIsProduct | src/TFTP.cpp:570 | the blocks before block n add up to the offset the server seeks to |
| Blocks.BlockLengths | src/TFTP.cpp:587-592 | of the blocks of a file exactly the last is short |
| Blocks.WindowIsBlocks | src/TFTP.cpp:581-628 | reading a window gives blocks first, first+1, ... up to the window size or through the first short block |
| Blocks.ConcatBlocks | src/TFTP.cpp:581-628 | the first n blocks concatenated are the bytes below the end of block n |
| Blocks.Reassembly | src/TFTP.cpp:581-628 | all blocks concatenated are the file, multiples of the block size and the empty file included |
| Request.CStrMeaning | src/TFTP.cpp:703-710 | a string of a request is the run of non-NUL bytes to the next NUL or the end of the packet |
| Request.AtoiDecimal | src/TFTP.cpp:420 | a number printed in decimal is read back |
| Request.AtoiPrinted | src/TFTP.cpp:407 | white space, a sign and digits are read up to the first other byte, saturated at 64 bits and cut to 32 |
| Request.AtoiOfNone | src/TFTP.cpp:407 | a text without a digit there reads 0 |
| Request.EqualIgnoreCaseMeaning | src/TFTP.cpp:405-430 | two texts match exactly if they are the same, the case of letters aside |
| Request.KeywordsSpelled | src/TFTP.h:70-74 | the option names are spelled as in the RFCs |
| Request.HeaderMeaning | src/TFTP.cpp:702-719 | a request is well-formed exactly if a NUL ends its first string before the last byte |
| Request.ReadPair | src/TFTP.cpp:381-387 | every option pair moves the cursor on and never past the byte behind the packet |
| Request.ScanOptions | src/TFTP.cpp:379-387 | the option loop ends with its cursor between its start and the byte behind the packet |
| Request.OptionsRoundTrip | src/TFTP.cpp:379-387 | printed option pairs are scanned back in order, to exactly the end of the packet |
| Request.DanglingName | src/TFTP.cpp:381-387 | a name without a value behind it is an error, and the pairs before it are read |
| Request.OpenEnd | src/TFTP.cpp:379-387 | a last value that the packet ends in place of a NUL is read all the same |
| Request.RequestRoundTrip | src/TFTP.cpp:702-719 | file name, mode and options of a printed request are scanned back, consuming exactly its bytes |
| Request.KeywordsDiffer | src/TFTP.h:70-74 | no option name matches two keywords, so the order of the tests does not matter |
| Request.ApplyOneOption | src/TFTP.cpp:405-442 | one pair changes exactly the term whose keyword it names, to the granted value, and only if acceptable |
| Request.NoProposalKeeps | src/TFTP.cpp:379-448 | a term nobody acceptably proposes stays as it was |
| Request.LastProposalWins | src/TFTP.cpp:379-448 | the last acceptable proposal decides each term, whatever stands around it |
| Request.NegotiatedWithinBounds | src/TFTP.cpp:405-442 | for any option bytes: 8 <= block size <= 65464, window within its maximum, timeout within its bounds |
| Protocol.Transmit | src/TFTP.cpp:598-621 | a window stops early exactly with an error, and a failed send leaves a block unsent |
| Protocol.CutKeepsHeader | src/TFTP.cpp:203 | what the receive buffer cuts off is never the header |
| Protocol.RunStopped | src/TFTP.cpp:171-239 | a session that has ended handles nothing more |
| WindowLoop.LoopIsPlanned | src/TFTP.cpp:581-628 | from any pass on, what the read-send-count loop still sends and where it stops is what the window computed in advance says |
| WindowLoop.LoopIsSendHere | src/TFTP.cpp:581-635 | the loop, its early exits and the two assignments behind it are the planned window |
| TftpSession.Session.constructor | src/TFTP.cpp:457-469 | a new session has the defaults: 512-byte blocks, window 1, the minimal timeout, nothing sent |
| TftpSession.Session.SmsgAckBlock | src/TFTP.cpp:503-545 | whole new state and packet: acknowledges the leading run, stores it as new base in 16 bits, clears the slots; a failed send only sets the error |
| TftpSession.Session.CountReceived | src/TFTP.cpp:505-515 | counts the leading run of slots with received data |
| TftpSession.Session.ClearReceived | src/TFTP.cpp:537-541 | sets every slot to zero |
| TftpSession.Session.SmsgData | src/TFTP.cpp:560-636 | whole new state and packets of sending a window from the base |
| TftpSession.Session.SendFromHere | src/TFTP.cpp:581-635 | the in-place loop leaves exactly the planned window's state and packets |
| TftpSession.Session.SendBlocks | src/TFTP.cpp:581-628 | the loop on cursor, end-of-file flag, byte counter and error equals its recursive unrolling |
| TftpSession.Session.SendBlock | src/TFTP.cpp:584-627 | one pass: reads a block, marks a short read, sends, counts, checks the limit |
| TftpSession.Session.CmsgAck | src/TFTP.cpp:777-825 | whole effect of an ACK as OnAck: wrong operation, too short, outside the window, done, or next window; what each comes to is in Answers and DownloadLife |
| TftpSession.Session.CmsgData | src/TFTP.cpp:947-1020 | whole effect of a DATA packet as OnData, acknowledgement included; what each comes to is in Answers and UploadLife |
| TftpSession.Session.CheckData | src/TFTP.cpp:949-984 | the guards in order; what each verdict counts and which error it sets |
| TftpSession.Session.Store | src/TFTP.cpp:986-1014 | records the block in its slot, writes it at its place, resets retries, detects the end |
| TftpSession.Session.CmsgError | src/TFTP.cpp:827-851 | an ERROR packet sets the error it names, or illegal operation if it is too short; Answers.ClientAbortsIff says what comes of it |
| TftpSession.Session.ParseOptions | src/TFTP.cpp:374-448 | the loop gives the terms of folding all complete pairs and consumes what scanning consumes |
| TftpSession.Session.ApplyNamedOption | src/TFTP.cpp:405-442 | the keyword branches set the terms as one option application does |
| TftpSession.Session.IsDownloadable | src/TFTP.cpp:731-739 | a file may be read exactly if the list holds its name, letter case aside |
| TftpSession.Session.IsUploadable | src/TFTP.cpp:893-901 | a file may be written exactly if the list holds its very name |
| TftpSession.Session.ReadHeader | src/TFTP.cpp:705-719 | file name and mode as scanned, or an error and nothing else |
| TftpSession.Session.CmsgRrq | src/TFTP.cpp:688-775 | whole effect of a read request in every branch as OnRrq; the answers are in Reception |
| TftpSession.Session.PrepareDownload | src/TFTP.cpp:747-768 | the session from the opened file up to its first window |
| TftpSession.Session.CmsgWrq | src/TFTP.cpp:853-945 | whole effect of a write request in every branch as OnWrq; the answers are in Reception |
| TftpSession.Session.PrepareUpload | src/TFTP.cpp:910-938 | the session from the opened file, with a fresh zero slot array of the agreed size |
| TftpSession.Session.ParsePacket | src/TFTP.cpp:334-372 | dispatches by opcode; unknown opcodes and short packets set their errors |
| TftpSession.Session.SmsgError | src/TFTP.cpp:638-686 | sends the error code, "disk full" as undefined |
| TftpSession.Session.HandleAndCheck | src/TFTP.cpp:173-200 | handles the packet and ends for a missing socket, an error or a finished transfer, in this order |
| TftpSession.Session.Receive | src/TFTP.cpp:203 | keeps at most one block and a header of a datagram |
| TftpSession.Session.Retry | src/TFTP.cpp:206-237 | an expired timeout counts a retry, gives up at the limit, else resends; Timing says in milliseconds when |
| TftpSession.Session.Resend | src/TFTP.cpp:225-236 | resends the window or the last acknowledgement |
| TftpSession.Session.NextRound | src/TFTP.cpp:202-239 | waiting for the client once and what comes of it is one round of the model |
| TftpSession.Session.ThreadDirectComm | src/TFTP.cpp:155-250 | a whole session leaves exactly the state, the packets and the liveness of the run its events describe |
| TftpSession.StepParts | src/TFTP.cpp:171-239 | waiting, then handling and checking, is one round |
| SessionStart.AgreedWithinBounds | src/TFTP.cpp:374-448 | whatever the bytes of a request, the session's terms are within their bounds |
| SessionStart.RrqBeginsIff | src/TFTP.cpp:688-775 | a download runs exactly after a well-formed request for a listed file that opens, with a socket, working sends and room under the limit for the first window |
| SessionStart.RrqEstablishes | src/TFTP.cpp:688-775 | it then has sent blocks 1, 2, ... of its window, is in a window at block 1, and has its bytes accounted; whether all seeks to come fit is decided by the agreed terms |
| SessionStart.RrqReachesInit | src/TFTP.cpp:764-774 | an accepted read request leads to the initial state of the end-to-end download |
| SessionStart.WrqBeginsIff | src/TFTP.cpp:853-945 | an upload runs exactly after a well-formed request for a listed file that opens, with a socket and a sent acknowledgement |
| SessionStart.WrqEstablishes | src/TFTP.cpp:853-945 | it then has sent ACK 0, has clean slots, an empty file and its whole byte budget |
| SessionStart.WrqReachesInit | src/TFTP.cpp:909-944 | an accepted write request leads to the initial state of the end-to-end upload |
| SessionStart.PrintedProposals | src/TFTP.cpp:418-442 | a client that prints acceptable block and window sizes gets them, the window capped |
| SessionStart.ProposedDownload | src/TFTP.cpp:688-775 | a printed request for a listed file brings about the initial state of the end-to-end download with just the proposed terms |
| SessionStart.ProposedUpload | src/TFTP.cpp:853-945 | and likewise that of the end-to-end upload |
| SessionStart.WindowOfTwoMisleads | src/TFTP.cpp:807-816 | after a printed request for a window of two, for any file of 2 to 65536 blocks the limit has room for, the server can be done while the client is not |
| SessionStart.WindowOfTwoLeavesHole | src/TFTP.cpp:1010-1014 | after a printed write request for a window of two, any file of at least two blocks that can be done at all can be left done with a block missing |
| Reception.Dropped | src/TFTP.cpp:334-372 | what is not a well-formed request gets no session and no answer |
| Reception.NoSocket | src/TFTP.cpp:183-187 | without a socket the session ends and no error packet is sent |
| Reception.FileNotFound | src/TFTP.cpp:740-754 | a request for a file that is not listed or does not open is answered with ERROR 1 alone, and ends; for write requests likewise |
| Reception.ReadReceived | src/TFTP.cpp:756-768 | a read request for a ready file: alive exactly if its options have values and its first window can be sent; else the DATA that went out and ERROR 4 or 0 |
| Reception.WriteReceived | src/TFTP.cpp:918-938 | a write request for a ready file: ACK 0, alive exactly if its options have values; else ERROR 4 behind it, or ERROR 0 alone |
| Reception.BegunIff | src/TFTP.cpp:171-200 | a session lives on behind its request exactly if all that went well, and is transferring then |
| Reception.AgreedSecondsPass | src/TFTP.cpp:206-212 | after its request a client is left alone for the seconds agreed on: nothing is resent or given up |
| Reception.AskedSeconds | src/TFTP.cpp:405-416 | a client that asks for 1 to 255 seconds is agreed with on as many, within the server's bounds |
| Answers.LimitInNumbers | src/TFTP.cpp:614-615 | under a positive limit exactly that many bytes pass and one more does not; 0 is no limit; a negative one counts from 2^64 |
| Answers.EveryPacketAnswered | src/TFTP.cpp:334-372 | every packet in a transfer, told from its bytes: ignored, only counted, refused with one ERROR of this code, or served, with the whole new state in the first two cases |
| Answers.LongerThanBlock | src/TFTP.cpp:203 | a datagram longer than a block with its header is handled as if it ended there |
| Answers.LateAck | src/TFTP.cpp:798-804 | an ACK outside the window changes nothing |
| Answers.LateBlock | src/TFTP.cpp:968-974 | a DATA packet not behind the base is counted and changes nothing else |
| Answers.ClientAbortsIff | src/TFTP.cpp:827-851 | a client's ERROR packet ends the session exactly unless its code is 255, and is answered with its code, 3 becoming 0 |
| Answers.MisfitEnds | src/TFTP.cpp:334-372 | packets for the other direction, too short, or of no kind end the session, with ERROR 4, or 0 for an unknown opcode |
| Answers.LimitReachedIff | src/TFTP.cpp:958-966 | an upload under a positive limit takes exactly as many bytes, headers included; one more ends it with ERROR 0 |
| Timing.TooEarly | src/TFTP.cpp:208-212 | less than the agreed seconds after the last activity a timeout does nothing |
| Timing.TimeUp | src/TFTP.cpp:212-237 | after them exactly one retry is counted, and then: given up without a word, the window sent again, or the last ACK |
| Timing.LeftAlone | src/TFTP.cpp:206-212 | over any silence shorter than the agreed seconds the session stays as it is |
| Timing.FewExpire | src/TFTP.cpp:206-237 | in less than k times the agreed seconds fewer than k timeouts expire |
| Timing.NotGivenUpEarly | src/TFTP.cpp:214-222 | a silent upload lives until every retry has had its seconds |
| Timing.ResendsTakeTime | src/TFTP.cpp:224-236 | in less than k times the agreed seconds a silent client is resent to fewer than k times |
| DownloadLaws.SeekIsExact | src/TFTP.cpp:570 | a seek whose product fits 31 bits goes to the offset of the base block, whatever the length of the file |
| DownloadLaws.PlanIsBlocks | src/TFTP.cpp:570-628 | the window planned at the base is the blocks from there on, and ends in a short block exactly if it reaches the last one |
| DownloadLaws.WindowSent | src/TFTP.cpp:560-636 | a window sends a run of true blocks from the base; all of them unless an error is set; the end counts as read exactly if the last block is in it |
| DownloadLaws.WholeWindow | src/TFTP.cpp:598-621 | a window is sent without an error exactly if every send works and the limit has room for its bytes |
| DownloadLaws.StepEffect | src/TFTP.cpp:171-239 | for any packet: the base moves only behind an accepted ACK and then strictly up, only blocks of the new window are sent, done exactly on an accepted ACK after end of file |
| DownloadLaws.PaidFits | src/TFTP.cpp:613-621 | under a positive limit every base an ACK can lead to is near enough to seek, because the blocks before it were paid for |
| DownloadLaws.StepKeeps | src/TFTP.cpp:570 | a session whose seeks fit stays one whose seeks fit, whatever the packet |
| DownloadLaws.RunSound | src/TFTP.cpp:171-239 | that invariant holds over every run against any client |
| DownloadLaws.WindowBase | src/TFTP.cpp:798-822 | in every live state the base lies within the file and, before end of file, so does the window; the seek product fits in 31 bits, for long files too at block sizes up to 32768 or under a limit |
| DownloadLaws.AckNamesSentBlock | src/TFTP.cpp:798-808 | before end of file an accepted ACK names a block that was sent and not the last |
| DownloadLaws.DeadEnd | src/TFTP.cpp:790-808 | with the base at 65536 no ACK is ever accepted and the transfer never completes |
| DownloadLaws.Reach | src/TFTP.cpp:790-816 | a completed download moved fewer than 65534 + window blocks; with window 1, fewer than 65535 |
| DownloadTotals.WindowAccounted | src/TFTP.cpp:613-621 | a window adds what it sent to the counter and passes a limit by less than a block more |
| DownloadTotals.Conservation | src/TFTP.cpp:613-621 | over any run the counter is the sum of all payloads sent, resends included, at most limit + block size |
| DownloadTotals.StepCauses | src/TFTP.cpp:798-822 | a round sends DATA only on an accepted ACK, which raises the base, or on an expired timeout, and then at most a window |
| DownloadTotals.Amplification | src/TFTP.cpp:798-822 | over any run DATA packets are at most a window for each accepted ACK and each resend, however ACKs are duplicated, and each accepted ACK raised the base |
| DownloadTotals.TracedRound | src/TFTP.cpp:798-822 | with window 1 a round without a resend sends the next block exactly on an accepted ACK |
| DownloadTotals.NoRepeats | src/TFTP.cpp:798-822 | with window 1 and no resends the packets sent are blocks 1, 2, 3, ... without repeats, a completed download each block once |
| DownloadTotals.SilentRound | src/TFTP.cpp:206-229 | silence ends a download without an error exactly if one expired timeout is already a retry too many |
| DownloadTotals.SilentClient | src/TFTP.cpp:206-229 | with two retries or more silence never ends a download by itself; each resend costs a window's bytes |
| DownloadTotals.ResendBound | src/TFTP.cpp:614-621 | with a limit and a window that is not empty, a silent client causes at most limit / window bytes + 1 resends |
| DownloadTotals.SilentForever | src/TFTP.cpp:614-635 | without a limit, or with an empty window whatever the limit, and with working sends, the session outlives any silence; an empty window leaves the counter where it was |
| DownloadTotals.ManyResends | src/TFTP.cpp:206-229 | such a session resends as often as one likes |
| DownloadTotals.ResendsBoundedIff | src/TFTP.cpp:206-229 | the resends of a silent client are bounded exactly if at most one retry is configured, or there is a limit and the window is not empty |
| UploadLaws.StoredEffect | src/TFTP.cpp:986-1017 | a stored block moves the ACK by at most one, never past its own number, and the slots are zero again |
| UploadLaws.NeverDuplicate | src/TFTP.cpp:979-984 | the "already stored" branch is unreachable |
| UploadLaws.SilentUploadRound | src/TFTP.cpp:206-236 | an expired timeout repeats the last ACK and counts a retry |
| UploadLaws.UploadRound | src/TFTP.cpp:947-1019 | for any packet: the base rises by at most one, only for a stored block, and bytes are counted |
| UploadLaws.AckArithmetic | src/TFTP.cpp:503-541 | over any run ACKs never decrease, never wrap and never exceed the highest block number received |
| UploadLaws.UploadWithinLimit | src/TFTP.cpp:959-966 | over any run payload written plus 4 per stored packet never exceeds a non-zero limit |
| UploadLaws.FuelOnTimeout | src/TFTP.cpp:206-237 | a timeout a second later uses up retry or waiting budget |
| UploadLaws.FuelOnData | src/TFTP.cpp:959-1008 | a DATA packet uses up byte budget worth more than the retries and seconds it restores |
| UploadLaws.RunSpends | src/TFTP.cpp:171-239 | every event of a live run costs at least one unit of budget |
| UploadLaws.UploadEnds | src/TFTP.cpp:171-239 | with a limit, a live upload has seen at most limit / 4 DATA packets and a bounded number of events |
| UploadLaws.SilentUpload | src/TFTP.cpp:206-236 | a silent client's upload, limit or not: every expired timeout counts as a retry, the file stays, and with working sends the session lives exactly as long as retries are left |
| UploadLaws.SilentUploadEnds | src/TFTP.cpp:206-236 | and on a clock that advances a second per timeout it ends within its retries times its timeout |
| DownloadSystem.AcceptedIsHeld | src/TFTP.cpp:797-808 | an ACK the server accepts names blocks the client holds, under loss, duplication and reordering |
| DownloadSystem.MoveInv | src/TFTP.cpp:171-239 | every move of server, client or network keeps the end-to-end invariant |
| DownloadSystem.DownloadSafety | src/TFTP.cpp:560-636 | in every reachable state the client holds a prefix of the file, packets under way are true blocks, the window contains the client's position |
| DownloadSystem.DownloadComplete | src/TFTP.cpp:807-816 | "transfer done" means the client holds the file: for window 1, a one-block file, or an ACK of the last block |
| DownloadExact.SpanIs | src/TFTP.cpp:581-628 | bytes of the window at a base: full unless it reaches the end, then the rest of the file |
| DownloadExact.StepCharged | src/TFTP.cpp:613-621 | for any client: a live session has sent at least what the cheapest way to its base costs, and one that is done ended from a base whose window reached the end |
| DownloadExact.DoneWithoutEarlyEnd | src/TFTP.cpp:807-816 | without a base that lets a session end early, done means the client is done |
| DownloadExact.TwoBasesEnough | src/TFTP.cpp:797-808 | if any base lets a session end early, one of two does |
| DownloadExact.ReachBase | src/TFTP.cpp:797-822 | every base the limit has room for can be reached, or one before it whose window reaches the end |
| DownloadExact.FalseCompletion | src/TFTP.cpp:807-816 | from a base that lets a session end early the server can be done while the client is not |
| DownloadExact.DownloadCompleteIff | src/TFTP.cpp:807-816 | for every configuration: "transfer done" always means complete exactly if neither of two bases lets a session end early |
| DownloadExact.FullDownload | src/TFTP.cpp:797-816 | a file of up to 65535 blocks that fits the limit can be downloaded: server done and client done, for every window size |
| DownloadExact.CompletionIff | src/TFTP.cpp:797-816 | for every configuration: the server can be done and the client hold the whole file exactly if the limit has room for the file, past 65535 blocks exactly if the session can end early |
| DownloadExact.EndsEarlyWithRoom | src/TFTP.cpp:790-816 | with room under the limit that is: window at least 2 and 2 to 65534 + window blocks |
| DownloadReach.BlockGoesOut | src/TFTP.cpp:598-621 | a block of a window goes out exactly if its send works and the bytes before it are within the limit |
| DownloadReach.StepAffordable | src/TFTP.cpp:613-621 | for any client: no block is ever sent whose predecessors alone exceed the limit |
| DownloadReach.OldCopies | src/TFTP.cpp:596 | a client behind block 65536 can be fed old copies, which go wrong at the last block at the latest |
| DownloadReach.WrapAround | src/TFTP.cpp:596 | past 65536 blocks, if the limit allows as many, the client can be given data that is not in the file |
| DownloadReach.DownloadSafetyIff | src/TFTP.cpp:596 | for every configuration: the client's data is always a prefix exactly for files up to 65536 blocks, or under limits below that |
| DownloadSeeks.OverseekIff | src/TFTP.cpp:570 | for every configuration and every file: the product of a seek can leave 31 bits exactly if the file takes more than one window, there is no positive limit, and the last base within 16-bit numbers is that far |
| DownloadSeeks.ReadsOn | src/TFTP.cpp:570-628 | behind a refused seek a window is what stands at the file's position, under the numbers of the base |
| DownloadSeeks.ResendsToTheEnd | src/TFTP.cpp:206-229 | timeouts then run through the rest of the file, until an empty block goes out under the number of the base |
| DownloadSeeks.CutShort | src/TFTP.cpp:570 | so without seekable offsets a client can be done with a file that ends before the first base too far |
| DownloadSeeks.DoneHoldsFileIff | src/TFTP.cpp:570 | within 65536 blocks, with a resend configured: a client that is done always holds the file exactly if all seeks fit |
| DownloadLife.WindowLivesIff | src/TFTP.cpp:598-621 | a window goes out whole exactly if its sends work and the limit, in numbers, has room; else ERROR 0 behind the DATA that did |
| DownloadLife.DownloadLivesIff | src/TFTP.cpp:171-239 | exactly which events a download survives, and how it ends otherwise: done, given up, or with one ERROR behind DATA |
| DownloadLife.NeverCutOff | src/TFTP.cpp:798-804 | with working sends, room and no strangers, no lost, late, repeated or reordered ACK, and no silence that leaves a retry, ends a download before it is done |
| DownloadRecovery.CanStillComplete | src/TFTP.cpp:202-239 | without a limit, up to 65535 blocks: from every reachable live state with a resend left the transfer can still be completed, the whole file at the client |
| UploadSystem.StoredIsBlock | src/TFTP.cpp:968-1002 | what the server stores from a conforming client is a true block, whatever the network did |
| UploadSystem.MoveInv | src/TFTP.cpp:171-239 | every move keeps the end-to-end invariant, for every window size |
| UploadSystem.MoveTracked | src/TFTP.cpp:503-541 | on every move: the client is at most where the server is, or 16-bit numbers have come round for it and the server was within a window of that |
| UploadSystem.StoredNumber | src/TFTP.cpp:968-1002 | while the client is not ahead, a block is stored under its own number, at most 65535 |
| UploadLife.UploadLivesIff | src/TFTP.cpp:171-239 | exactly which events an upload survives, and how it ends otherwise: done and acknowledged, given up, or with one ERROR |
| UploadLife.NeverCutOff | src/TFTP.cpp:968-984 | with working sends, room and no strangers, no lost, late, repeated or reordered block, and no silence that leaves a retry, ends an upload before it is done |
| UploadLockStep.StoredIsNext | src/TFTP.cpp:968-974 | with window 1 only the block behind the base is ever stored |
| UploadLockStep.AppendBlock | src/TFTP.cpp:995-1002 | writing it without a seek appends it at its place |
| UploadLockStep.UploadSafety | src/TFTP.cpp:947-1019 | the server's file is a prefix of the client's in whole blocks, for every size; done means equal and shorter than 65535 blocks |
| UploadLockStep.UploadAcknowledged | src/TFTP.cpp:1010-1017 | with window 1, up to 65535 full blocks or under a limit of fewer packets, an acknowledged last block means the file is complete; when it can be acknowledged, UploadHeard.FullyAcknowledgedIff says |
| UploadPlacement.LayoutUnique | src/TFTP.cpp:995-1002 | the set of stored blocks determines the file, so storing one again changes nothing |
| UploadPlacement.PlaceBlock | src/TFTP.cpp:995-1002 | writing block n at its offset extends the layout by exactly block n |
| UploadPlacement.CompleteLayout | src/TFTP.cpp:995-1002 | with all blocks stored the layout is the client's file |
| UploadPlacement.UploadPlaced | src/TFTP.cpp:968-1008 | with windows above 1, where no block can be stored under another's number and none that is too far to seek, the file is always the layout of the blocks stored: right bytes in place, zero holes, length of the highest block; a transfer that is done has stored the last block |
| UploadPlacement.UploadComplete | src/TFTP.cpp:1010-1014 | done means all blocks stored, for window 1 or a one-block file |
| UploadClimb.ClimbTo | src/TFTP.cpp:503-541 | client and server can be brought to agree on any acknowledgement before the last row, at one full packet for each step |
| UploadClimb.Drift | src/TFTP.cpp:968-974 | old acknowledgements alone carry a client past the server to any block whose 16-bit number they reach |
| UploadClimb.RunAhead | src/TFTP.cpp:968-974 | so past 65535 blocks the client can be at such a block while the server stands still, still alive |
| UploadClimb.AheadFor | src/TFTP.cpp:968-984 | and can send from there a block whose 16-bit number the server still stores |
| UploadLedger.FullPaid | src/TFTP.cpp:959-1017 | a full block pays for a step of the acknowledgement, which never passes the last row of 16-bit numbers |
| UploadLedger.LastDone | src/TFTP.cpp:1010-1014 | the last block is stored only if the limit has room for the cheapest way to it |
| UploadLedger.MoveTold | src/TFTP.cpp:947-1019 | on every move: what was acknowledged and stored has been paid for, by the server and for a client that is ahead |
| UploadLedger.StoredAsItself | src/TFTP.cpp:968-1002 | files of up to 131072 - window blocks, or lower limits: every block is stored under its own number, however far the client is ahead |
| UploadLedger.OverseekNeeds | src/TFTP.cpp:995-998 | a stored block that is too far to seek is one the limit has room for on the cheapest way, and two blocks decide whether there is one |
| UploadExact.StoredSlow | src/TFTP.cpp:986-1017 | with a larger window a stored block costs its packet and keeps the ACK behind the last block |
| UploadExact.NeverFullyAcknowledged | src/TFTP.cpp:503-541 | with windows above 1 and 2 to 65535 blocks no client ever hears that its last block arrived; the exact condition for all files is UploadHeard.FullyAcknowledgedIff |
| UploadExact.EndsCheaply | src/TFTP.cpp:1010-1014 | up to 65535 blocks, if the limit has room for the cheapest session, an upload can be done with only the first blocks of rows and the last block stored |
| UploadExact.EndsWithHole | src/TFTP.cpp:1010-1014 | with a larger window and 2 to 65535 blocks, if the limit has room for the cheapest session, an upload can be done with a block missing |
| UploadExact.EndsAhead | src/TFTP.cpp:1010-1014 | past 65535 blocks, a client that is ahead can end the upload with its last block, if that one's number is behind the turn |
| UploadExact.DoneStoresLast | src/TFTP.cpp:1010-1014 | a transfer that is done stored the last block, within the limit and with a number behind the turn |
| UploadExact.UploadDoneIff | src/TFTP.cpp:959-1014 | for every configuration and every file: an upload can be done exactly if the limit has room for its cheapest session and the last block's number is one the server is not past |
| UploadExact.UploadCompleteIff | src/TFTP.cpp:1010-1014 | for every configuration and every file: done always means all blocks stored exactly for window 1, a one-block file, or where no upload can be done |
| UploadHeard.FullUpload | src/TFTP.cpp:1010-1017 | with window 1 or a one-block file whose last block is not empty, within the limit, the server can be done and its client have heard so |
| UploadHeard.LastHeard | src/TFTP.cpp:503-541 | past 65535 blocks the last block, sent by a client that is ahead, can itself make the server acknowledge its number |
| UploadHeard.FullyAcknowledgedIff | src/TFTP.cpp:986-1017 | for every configuration and every file: a client can hear that its last block arrived exactly if, up to 65535 blocks, window or file is one block, the last block is not empty and the limit has room; past that, if its 16-bit number can be acknowledged within the limit |
| UploadHeard.UploadAcknowledgedIff | src/TFTP.cpp:968-974 | with window 1, for every file: an acknowledged last block always means a complete file exactly up to 65535 full blocks or under a limit of fewer packets |
| UploadHeard.AcknowledgedStoredIff | src/TFTP.cpp:503-541 | for every window and every file: an acknowledged last block always means every block was stored exactly up to 65535 blocks, and past that exactly where no acknowledgement of it can be had |
| UploadHeard.BlockMisplaced | src/TFTP.cpp:995-1002 | a block past 65535 whose 16-bit number is behind the turn can be written where the block with that number belongs; if the two differ, the file is no layout of its blocks any more |
| UploadHeard.MisfiledIff | src/TFTP.cpp:968-984 | for every configuration and every file: a block past 65535 can be sent and stored exactly with a larger window, more than 131072 - window blocks, and room under the limit for the way there and the block |
| UploadHeard.OverseekIff | src/TFTP.cpp:995-998 | for every configuration and every file: with a larger window a block too far to seek can be stored exactly if the first such number or the last block can be, within 16-bit numbers and the limit |
| Base64.TableIsLetters | src/pthread_win.cpp:102-109 | the conversion table is table 1 of RFC 4648 |
| Base64.TripleSextets | src/pthread_win.cpp:135-140 | the shifts of the 24-bit group cut it into its four sextets, most significant first |
| Base64.RoundTrip | src/pthread_win.cpp:113-149 | a text decodes to a byte string exactly when it is its encoding |
| Base64.Distributes | src/pthread_win.cpp:129-141 | encoding distributes over concatenation behind a multiple of three bytes |
| Base64.PaddingCompletes | src/pthread_win.cpp:123-144 | 4 * ceil(n/3) characters; overwriting the last (3 - n mod 3) mod 3 of the unpadded text with `=` gives the encoding, and no other character is `=` |
| Base64.WriteGroups | src/pthread_win.cpp:129-141 | the two-index loop writes all groups in full, in range |
| Base64.Base64Encode | src/pthread_win.cpp:114-149 | a NUL-terminated encoding of that length, or none exactly above 15 MiB or without memory |
| PortSearch.AdvanceInRange | src/TFTP.cpp:139-143 | from any position one step leads into the range, which excludes the configured maximum |
| PortSearch.Rotation | src/TFTP.cpp:139-143 | in range, k steps are a rotation by k |
| PortSearch.AttemptsDiffer | src/TFTP.cpp:139-143 | as many successive attempts as the range has ports try different ports |
| PortSearch.EveryPortComes | src/TFTP.cpp:139-143 | and each port of the range is among them |
| PortSearch.FailureIsConclusiveIff | src/TFTP.cpp:87-148 | a failed search rules out every port of the range exactly when its attempts cover it |
| PortSearch.PortWalk.CreateCommSocket | src/TFTP.cpp:87-151 | stops at the first usable port in walking order, preferred port first; fails only after a hundred unusable ones, or when no socket can be created; where it leaves the walk |
| ConfigFile.ChrPos | src/config.cpp:13-24 | the first position of a character among the first MaxLen bytes of a C string, or -1 if it is not there |
| ConfigFile.StrCmp2 | src/config.cpp:26-35 | 0 exactly if the second string is a prefix of the first |
| ConfigFile.RemoveEol | src/config.cpp:37-46 | the C string in the buffer ends at its first line end among MaxLen bytes, if there is one; what stands before is untouched |
| ConfigFile.GenericStrLoader | src/config.cpp:48-76 | for any file: the first value of the key, or -1 and an empty string, or 1 |
| ConfigFile.GetIntConfig | src/config.cpp:78-87 | the number the first value denotes; otherwise the default stays |
| ConfigFile.LoadMultiLineValue | src/config.cpp:105-131 | for any file: all values of the key are appended, in order |
| ConfigFile.LinesCover | src/config.cpp:57-60 | reading in pieces of at most 1499 bytes loses nothing |
| ConfigFile.LineLength | src/config.cpp:57-60 | a line of up to 1498 bytes is read whole, a longer one is cut behind 1499 |
| ConfigFile.ValueMeaning | src/config.cpp:61-72 | a line has a value for a key exactly if it starts with the key and holds a `=` that is not in front; the value is what stands between the first `=` and the line end |
| ConfigFile.PrintedValue | src/config.cpp:61-68 | a printed entry gives its value to exactly those keys its own key begins with |
| ConfigFile.PrintedValues | src/config.cpp:114-128 | loading a key from a printed file gives the values of all entries whose key begins with it, in order |
| ConfigFile.OwnValuesIff | src/config.cpp:26-35 | a key gets exactly its own values exactly when no other key in the file begins with it |

## Left out

* TftpSession.Session.ParseOptions: does not build or send the OACK reply (src/TFTP.cpp:403-452, 547-558), whose lengths leave out the NUL behind each value; with it goes the answer to `tsize`.
* TftpSession.Session.ApplyNamedOption: has no branch for `tsize` and `multicast`, which only add to that reply or do nothing.
* TftpSession.Session.PrepareDownload: without the OACK send, whose failure the program only logs.
* TftpSession.Session.PrepareUpload: without the OACK send, as for downloads.
* TftpSession.Session.CmsgRrq: without the OACK among the packets sent.
* TftpSession.Session.CmsgWrq: without the OACK among the packets sent.
* TftpSession.Session.SmsgData: the allocation of its packet buffer always succeeds.
* TftpSession.Session.SmsgError: records the code of the ERROR packet without its text, and records it whether or not the send succeeds, since a failed one is only logged.
* TftpSession.Session.ThreadDirectComm: the server being stopped is the end of the event list; the table of active clients and the transfer counter, which threads share without synchronisation, are not modelled.
* ConfigFile.GenericStrLoader: asks that the text behind the first matching `=` fit the destination with a NUL, as it always does for the integer settings; the program leaves a shorter destination without a terminator and reads past it.
* PortSearch.PortWalk.CreateCommSocket: does not cover reusing the listening socket (src/TFTP.cpp:71-84); a search that fails leaves a closed descriptor, which the session model covers as a socket whose sends all fail.
* PortSearch.AdvanceInRange: for bounds with a port between them; for others, such as a start above the end, the walk stays on one port or leaves the bounds.
* Base64.Base64Encode: the input is a sequence value, so input and output sharing memory is not captured.
* DownloadSystem.DownloadSafety: for downloads whose seeks fit an `int`, which DownloadSeeks.OverseekIff makes exact; the others are files of 2^31 bytes and more at block sizes above 32768 without a positive limit. Of these, what is proved is that a client can be left with a file cut short, if a resend is configured (DownloadSeeks.CutShort).
* DownloadSeeks.DoneHoldsFileIff: leaves aside sessions without a resend and a file that ends right before the first base too far, whose last block is empty wherever it is read.
* UploadPlacement.UploadPlaced: where a block can be stored under another's number, or one too far to seek, by the exact conditions of UploadHeard.MisfiledIff and UploadHeard.OverseekIff; where a refused seek then puts the block is not part of the model's statements.
* UploadLaws.UploadEnds: for runs of DATA packets and timeouts on a clock that advances a second per timeout, which is the socket's timeout; a stray acknowledgement ends an upload, and stray requests, which are ignored without using up any budget, are not part of the statement.
* Sockets, threads, the file system, logging, GUIDs and the AWS queue: only their answers appear, as parameters.
* Memory: buffer growth during option parsing and packet buffers as raw memory; packets are byte sequences.
* Wrap-around of the millisecond tick and of the byte counter.
* The transfer mode, which the server ignores, and the stub for the multicast option.
* The return codes of the handlers, which no caller uses.
* `GetFloatConfig` and `GetStrConfig`.
* DownloadRecovery.CanStillComplete: without a limit and up to 65535 blocks, since resends use a limit up and later blocks cannot be acknowledged; for uploads no such statement is made.
* That transfers are completed in the end: the network may lose everything.
