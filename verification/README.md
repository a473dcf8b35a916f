# Wi-Fi control: the station runtime and its wire formats

A Dafny model of `wifi-ctrl`, the library that drives `wpa_supplicant` and `hostapd` over their control sockets.
It covers two parts, and proves properties of each for all inputs and all runs.

**The station runtime.** `Station.dfy` is `WifiStation::run` as a step machine, cut at every await: start-up with two
opens and the replay of the requests set aside, the select loop, the handlers, and `run` called again after it
returned. One input is one thing that the environment, a client, the clock or the scheduler does, so a theorem about
all input sequences is a theorem about all interleavings. A request carries a numbered ticket for its one-shot answer;
the log records every ticket answered or dropped (a dropped one reaches the client as `RunnerNotRunning`).
`Runner.dfy` is the same runtime in the shape of the source: a class with the fields of the future, loops where the
source loops, a method per handler. It is proved to end every stream of inputs in exactly the machine's state, so the
theorems about the machine hold of it. `Conservation.dfy` and `Invariant.dfy` hold the invariants; `Alignment.dfy`,
`SelectSlot.dfy`, `Deferral.dfy`, `Progress.dfy`, `History.dfy` and `Guarantees.dfy` the theorems; `Exchanges.dfy` says
what replies and answers mean, and `Commands.dfy` reads the commands back. `Delivery.dfy` and `NetworkList.dfy` join the
runtime with the wire formats: what the client asked is what is sent, and what the peer wrote is what the client gets.
`LateReply.dfy` is a run in which it is not. `Attach.dfy` is the retrying handshake of the access point's event socket.

**The wire formats.** `Escape.dfy` (the `printf_encode` escapes), `Config.dfy` (the `key[i]=value` parser),
`StatusReply.dfy`, `ScanTable.dfy`, `Credentials.dfy` (BSSID and PSK) and `SetNetwork.dfy` (the `SET_NETWORK` command),
over `Text.dfy` (the `str` operations used) and `Utf8.dfy` (RFC 3629). The writer of each format that only has a parser
in the library, and the reader of the one that only has a writer, are defined beside it.

What the proofs show to be false, or narrower than one may read it:

- **Replay can block for good.** Nothing receives from the channel while the deferred requests are sent back into it.
  The replay can end just when they fit together with what is queued (`Deferral.ReplayEndsExactly`); for every capacity
  (tokio takes none below one) a start-up exists that never reaches the loop and answers nothing, not even a shutdown
  (`Deferral.StartupCanStick`).
- **A late reply stays on the socket.** An exchange reads the reply to its own command exactly when no earlier exchange
  on the socket was given up (`Alignment.ReplyAlignment`). After one command timeout a later request can be reported as
  done although the peer refused it (`LateReply.RefusalReadAsSuccess`).
- **The access point's attach can succeed with LOG_LEVEL never answered**, by a late answer to ATTACH
  (`Attach.StaleReply`), or because events arrive on the same socket and one is read as a reply
  (`Attach.EventForReply`). `Attach.LogLevelConfirmed` gives the exact condition for a peer that answers in order, each
  datagram at most once: the attempts that missed their reply, with the events read as replies, are fewer than the times
  LOG_LEVEL was sent, with the datagrams that the peer passed over.
- **`FAIL` is not always a failure.** It is reported as `Failed` only if the request's own parser rejects it, so a
  custom request never fails that way (`Exchanges.FailedExactly`, `Exchanges.CustomOutcome`).
- **`GET_NETWORK` undoes the SSID encoding only** for graphic ASCII without quote and backslash
  (`SetNetwork.GetNetworkUndoesExactly`).
- **A network without flags is listed with its BSSID column for flags**, since the flags are taken to be the last word
  of the line (`NetworkList.NetworksDelivered`).
- **The last status value loses its trailing spaces**, and nothing else is lost (`Delivery.StatusReplied`).
- **`\x+5` decodes**, as the hexadecimal reader takes a sign; so do the list indices `+1` and `007`
  (`Config.IndexSpellings`). Only `\x` escapes can break UTF-8 (`Escape.HexEscapes`, `Escape.HexFreeDecoding`).

## Model

| member | source | states |
|---|---|---|
| Guarantees.TicketConservation | src/sta/mod.rs:38-309 | In every state of every run, restarts included, each request ever sent is in exactly one place exactly once: channel, deferred, in hand, waiting for a scan, pending select, answered or dropped |
| Guarantees.ResolvedOnce | src/sta/mod.rs:135-309 | No ticket is answered twice, dropped twice, or both answered and dropped, over any run |
| Guarantees.ResolvedForGood | src/sta/mod.rs:38-309 | What was answered or dropped stays so however the run goes on, across later calls of `run` too |
| Guarantees.StoppedHoldsNothing | src/sta/mod.rs:38-64 | Whenever `run` has returned, for whatever reason, every ticket is resolved or still in the channel |
| Guarantees.ScanAnswered | src/sta/mod.rs:143-155 | A scan request is answered by its own SCAN exchange when the reply was neither OK nor FAIL-BUSY, or else by the first scan-ending event handled after its acceptance: a failed scan gives Failed with no exchange, a completed one what its one SCAN_RESULTS exchange gave |
| Guarantees.WaitersAreFresh | src/sta/mod.rs:204-219 | Whoever still waits for a scan was accepted after the last scan-ending event handled: the list is emptied at each |
| Guarantees.SameEventSameValue | src/sta/mod.rs:143-155 | All scans answered at one event get the same value |
| Guarantees.EveryWaiterAnswered | src/sta/mod.rs:147-149 | The pop loop answers every waiter once, the last accepted first |
| Guarantees.ScanCompleteFetchesOnce | src/sta/mod.rs:143-150 | One ScanComplete makes exactly one SCAN_RESULTS exchange, whose outcome, good or bad, answers all waiters, however many |
| Progress.EventHandled | src/sta/mod.rs:135-182 | What each of the seven events does in the loop: ScanComplete begins SCAN_RESULTS and answers nobody yet, ScanFailed answers every waiter Failed and sends nothing, the three connection events answer the pending select with their own result, the others change nothing |
| History.EventHistory | src/sta/mod.rs:135-182 | The histories by which answers are numbered are exactly the events that the loop was given and handled, in order, over every run |
| Guarantees.SelectAnswered | src/sta/mod.rs:156-176 | A select is answered by its own exchanges, AlreadyConnected exactly when SELECT_NETWORK got OK and the STATUS after it shows this network; by the first Connected, NetworkNotFound or WrongPsk handled after registration with that event's result; by its own timer no earlier than registration plus the timeout with no such event between; or refused |
| Guarantees.PendingIsFresh | src/sta/mod.rs:79-130 | The pending select was accepted by its own exchanges, and no resolving event was handled since it was registered |
| Guarantees.PendingStays | src/sta/mod.rs:270-305 | Only an event, its timer or the end of the run can take a pending select out of the slot; other requests cannot displace it |
| SelectSlot.SlotRefinement | src/sta/mod.rs:79-130 | In every reachable state, every step of the runtime is a step of a one-slot specification: register only into an empty slot, resolve, expire, abandon at the end, with exactly the log entries that these mean; it expires if and only if the timer is due, and resolves if and only if the event is one of the three |
| SelectSlot.SlotsInTurn | src/sta/mod.rs:322-340 | Selects occupy the slot one after the other: what resolved an earlier one, event or timer, came before the next was registered, so a resolved select's timer never resolves a later one |
| Progress.TimerExactly | src/sta/mod.rs:92-130 | The timer fires exactly when a select is pending, the loop selects and the timeout has passed since registration, and then answers Timeout; otherwise it does nothing |
| Alignment.ReplyAlignment | src/socket_handle.rs:97-140 | With a peer that answers every datagram once and in order, exchange n reads reply n minus the earlier exchanges on that socket that timed out or wrote short; so its own exactly when there were none |
| LateReply.RefusalReadAsSuccess | src/socket_handle.rs:112-118 | For every configuration, a run with such a peer in which one timeout makes a refused RECONFIGURE be reported to its client as done |
| Alignment.OwnReplies | src/socket_handle.rs:97-140 | If none did so far, every exchange of a conversation, network lists and selects included, reads the reply to its own command |
| Alignment.AnswersFromOwnReplies | src/sta/mod.rs:190-309 | Every answer ever given from replies is what the request's own commands' replies mean, and under an orderly peer with nothing given up those are the peer's replies to just these commands |
| Delivery.StatusDelivered | src/sta/mod.rs:184-188 | In any run with an orderly peer and nothing given up before, a client that asks for the status gets the map that the peer wrote into its reply to that STATUS, each typed field being the value of its own key, id and freq the numbers that theirs spell |
| Delivery.ScanDelivered | src/sta/mod.rs:143-150 | Likewise every scan answered at a ScanComplete gets the table that the peer wrote into its reply to that SCAN_RESULTS, sorted |
| NetworkList.NetworksDelivered | src/sta/types.rs:81-118 | Likewise the networks that the peer lists, with the SSIDs that it tells when asked one by one, reach the client as exactly these in this order; a line without a number adds nothing and sends nothing; an empty flags column is replaced by the BSSID |
| Commands.FirstCommandReadable | src/sta/mod.rs:198-306 | A reader of commands that knows nothing of the writer recovers kind and arguments of every request from its first command; a custom one is sent verbatim |
| Delivery.RequestSent | src/sta/mod.rs:190-309 | In any run, an answered request that was not refused sent first a datagram that reads as exactly that request |
| Delivery.RequestUnderWay | src/sta/mod.rs:190-309 | So does the datagram of every request still at its first exchange |
| Delivery.OutcomeTold | src/socket_handle.rs:91-162 | In any run, a command is told done exactly on OK, Failed exactly on FAIL, Timeout exactly when its own exchange timed out; ADD_NETWORK a number exactly when the reply spells it; a custom request its reply's text |
| Guarantees.TimeoutsAreDue | src/socket_handle.rs:112-118 | An exchange never times out before its timeout has passed since the send |
| Progress.ExchangeExactly | src/socket_handle.rs:97-140 | In any run, an exchange under way reads the next reply when there is one, times out exactly once the command timeout has passed, and ends at once on a short write, each with that outcome |
| Guarantees.OpenArithmetic | src/socket_handle.rs:39-61 | At every connect attempt of every run, failed attempts do not exceed the seconds since the open began, and the minutes left to report never underflow |
| Progress.OpenExactly | src/socket_handle.rs:39-61 | An open is given up exactly from five minutes after it began, a failed connect is tried again exactly from a second later, a refused permission ends it, and a success goes on to the next stage |
| Progress.RunBegins | src/sta/mod.rs:38-46 | Calling `run` begins the first open, whose clock starts then; a socket that cannot be bound ends it |
| Progress.EndsExactly | src/sta/mod.rs:38-133 | In any run, `run` returns exactly for a shutdown received, a deadline, a refused permission or a socket error, each with its own result, and for nothing else |
| History.FirstInFirstOut | src/sta/mod.rs:87-100 | Over every run, messages are taken from the channel in the order in which they entered it, and what was not taken is still in it |
| Progress.SentExactly | src/sta/mod.rs:27-30 | A client's message enters at the end of the channel exactly when there is room |
| History.TakenHandled | src/sta/mod.rs:113-125 | A request taken is set aside during the opens, begun in the loop, or refused if it is a select while one is pending, which sends nothing and leaves the slot; a shutdown ends the run |
| Deferral.StartupOrder | src/sta/mod.rs:38-64 | Over a whole start-up, what was queued and what arrived is split in order into the requests set aside and the rest, and these requests come back in their order behind that rest, among what arrives meanwhile |
| Deferral.DeferredInOrder | src/socket_handle.rs:62-83 | During both opens, the deferred list followed by the channel is always what was queued followed by what arrived: exactly the requests received, in arrival order |
| Deferral.ReplayMerges | src/sta/mod.rs:55-61 | In any run, during replay the channel grows by a merge of the replayed requests, in their order, and of what clients send meanwhile; nothing is lost, copied or answered |
| Deferral.ReplayNeverBlocks | src/sta/mod.rs:55-61 | In any run, if deferred, queued and meanwhile arriving requests fit the capacity, no order of events blocks the replay |
| Deferral.ReplayEndsExactly | src/sta/mod.rs:55-61 | In any run, some continuation ends the replay if and only if deferred and queued requests together fit the capacity |
| Deferral.OverfullForever | src/sta/mod.rs:55-61 | In any run, if they do not fit, no continuation whatever ends the replay or resolves a request |
| Deferral.StartupCanStick | src/sta/mod.rs:38-64 | For every capacity there is a start-up after which, whatever follows, the first request is never resolved |
| Invariant.RunInv | src/sta/mod.rs:38-309 | The invariant behind all of these holds after every run: history, waiters, slot, sockets and the conversation in hand agree with each other, requests are conserved, and the channel never exceeds its capacity |
| Runner.WifiStation.Await | src/sta/mod.rs:87-100 | An await skips exactly the inputs that do not wake it, and the fields then are the machine's state |
| Runner.WifiStation.Exchange | src/socket_handle.rs:97-140 | `request` and `command_matching`: one datagram and at most one reply, added to the socket's trace, or the run fails |
| Runner.WifiStation.RequestResults | src/sta/types.rs:81-118 | The loop over the network list does what the machine does row by row, and ends with one answer |
| Runner.WifiStation.HandleRequest | src/sta/mod.rs:190-309 | Handling a request leaves the fields in the machine's state for it |
| Runner.WifiStation.AnswerScans | src/sta/mod.rs:147-154 | The pop loop empties the waiter list and appends one answer per waiter |
| Runner.WifiStation.ServeEvent | src/sta/mod.rs:135-182 | Handling an event leaves the fields in the machine's state for it |
| Runner.WifiStation.RunInternal | src/sta/mod.rs:72-133 | The select loop ends only by returning a result or with the stream, the fields being the machine's |
| Runner.WifiStation.Open | src/socket_handle.rs:21-84 | The connect loop, its deadline and the setting aside of requests follow the machine; its list is the deferred list |
| Runner.WifiStation.Replay | src/sta/mod.rs:56-61 | The replay loop adds to the channel all the deferred requests, in their order, among what clients send meanwhile, and nothing else |
| Runner.WifiStation.Run | src/sta/mod.rs:38-64 | `run` returns with every request it held dropped, and the machine stopped with the same result |
| Runner.Live | src/sta/mod.rs:38-64 | `run` called again and again over any stream of inputs ends in the machine's state for it, which keeps the invariant and conserves requests |
| Attach.EventSocket.RetryCommand | src/ap/event_socket.rs:79-94 | The retry loop on the mutable socket computes the retry specification |
| Attach.EventSocket.New | src/ap/event_socket.rs:36-56 | The handshake builds the command word by word and computes the handshake specification |
| Attach.AttachCommandReadable | src/ap/event_socket.rs:36-40 | The command built splits back into ATTACH and its options if and only if no option holds a space |
| Attach.AttemptExactly | src/socket_handle.rs:97-118 | One attempt takes the next thing that comes in by the deadline and is accepted exactly on OK; with nothing by then it times out at the deadline |
| Attach.UnsentExactly | src/socket_handle.rs:102-105 | A send that fails ends the handshake, and one that is short is a client error with both lengths |
| Attach.RetryExactly | src/ap/event_socket.rs:79-94 | `retry_command` succeeds if and only if some attempt within the retries is accepted with no socket error before it, and fails with AttachFailed if and only if all end in client errors |
| Attach.RetryBounds | src/ap/event_socket.rs:79-94 | It sends at most one datagram per retry and takes at most retries times timeout plus delay; a failure used all retries and their delays |
| Attach.SilentPeer | src/ap/event_socket.rs:79-94 | Against a silent peer all retries are made, and take exactly their timeouts and delays |
| Attach.HandshakeBounds | src/ap/event_socket.rs:41-56 | LOG_LEVEL goes out only after an accepted ATTACH; at most twice the retries in datagrams and twice their time |
| Attach.LogLevelConfirmed | src/ap/event_socket.rs:41-56 | In every world whose peer answers in order and each datagram at most once, with events anywhere, what completes the handshake is an answer to LOG_LEVEL if and only if it is an answer and misses plus events read are fewer than LOG_LEVELs sent plus datagrams passed over |
| Attach.StaleReply | src/ap/event_socket.rs:41-56 | A world with such a peer where only ATTACH is ever answered, and the handshake succeeds on its late answer |
| Attach.EventForReply | src/ap/event_socket.rs:59-73 | Another, where an event is read as the reply to the first LOG_LEVEL and a late answer to ATTACH as that to the second |
| Escape.DecodeLoop | src/config.rs:166-195 | The iterator loop computes the recursive decoder, errors included |
| Escape.RoundTrip | src/config.rs:166-195 | Decoding an encoded text gives the text back, for every text |
| Escape.EncodeInjective | src/config.rs:166-195 | Different texts are encoded differently |
| Escape.UnescapeAppend | src/config.rs:166-195 | On bytes, a front that decodes decodes on its own: decoding distributes over what follows |
| Escape.UnescapeLength | src/config.rs:166-195 | Output length ≤ input length ≤ 4 × output length, and an escape always shrinks |
| Escape.DecodedExactly | src/config.rs:166-195 | The decoder accepts exactly the texts made of plain bytes, a backslash and one byte, or `\x` with two hexadecimal digits or a plus and one, and gives their bytes |
| Escape.BadEscapes | src/config.rs:172-187 | After any good front, a lone backslash or a cut-off `\x` is incomplete, and a `\x` with anything else is invalid |
| Utf8.KnownCodes | src/config.rs:167 | Texts are bytes by their UTF-8 codes, of two, three and four bytes as RFC 3629 has them |
| Escape.HexFreeDecoding | src/config.rs:166-195 | Without a `\x` step the byte decoder is a character-by-character one, even after a backslash before a multi-byte character, so the result is always UTF-8 |
| Escape.HexEscapes | src/config.rs:177-187 | `\xff` breaks UTF-8, and `\x+5` decodes |
| Config.FillTable | src/config.rs:56-79 | The line loop that fills the hash map computes the parser's specification, errors included |
| Config.AcceptedExactly | src/config.rs:61-79 | A text is accepted if and only if every line parses and the indices of each key are 0, 1, 2, ... in line order |
| Config.LineExactly | src/config.rs:61-74 | A line is accepted exactly when it is a name, perhaps a number in brackets right after it, an equals sign and a value; the name is trimmed and the value kept |
| Config.NoEquals | src/config.rs:62-64 | A line is refused for its missing equals sign exactly when it has none |
| Config.InvalidBracket | src/config.rs:65-70 | A key with an open bracket is invalid exactly when it does not end in the closing one |
| Config.TrimExactly | src/config.rs:61 | Trimming takes away exactly the whitespace around a text |
| Text.LinesEndings | src/config.rs:61 | A carriage return goes with the line feed after it, and stays in the line without one |
| Text.UnsignedExactly | src/config.rs:67 | The readings of an unsigned number are exactly its decimal spellings up to the maximum, with or without a plus sign and leading zeros |
| Config.LinesAreEntries | src/config.rs:61-79 | Lines and table entries correspond one to one: entry i of a key is the value of its line with index i |
| Config.SwapLines | src/config.rs:61-79 | Exchanging adjacent lines of different keys changes nothing, whatever surrounds them |
| Config.IndexSpellings | src/config.rs:65-67 | An index with a plus sign and leading zeros is read as its number, for every key, number and value |
| Config.CollectNumbered | src/config.rs:61-79 | Any interleaving of keys, each numbered in order, collects into the vectors it was made from |
| Config.RenderedTextParses | src/config.rs:56-80 | Rendering any map of non-empty vectors in any interleaving parses back to that map |
| Config.RenderedTail | src/config.rs:61 | The trim of the whole text touches nothing but the whitespace at the end of the last value |
| StatusReply.Deserialize | src/config.rs:134-139 | Visiting the hash map in any order succeeds exactly when the specification does, each typed field being the value of its own key; an error is that of some bad field |
| StatusReply.StatusExactly | src/sta/types.rs:151-165 | A reply is a status exactly when its lines parse, every key has one value and every value decodes, and then the fields show the decoded map |
| Delivery.StatusReplied | src/sta/types.rs:151-165 | Any map of clean keys to any texts, written escaped in any order with any blank padding, comes back through the reply and its newline trim with each typed field from its own key, except for spaces at the end of the last value; exact if and only if there are none |
| ScanTable.CollectResults | src/sta/types.rs:51-65 | The push loop followed by the sort computes the table specification |
| ScanTable.ScanIsStableSort | src/sta/types.rs:51-65 | The result is the one list that is sorted by signal, a permutation of the parseable body lines, and keeps line order among equal signals |
| ScanTable.StableSortUnique | src/sta/types.rs:63 | Two stable sorts of the same entries are equal |
| ScanTable.OddLineIgnored | src/sta/types.rs:53-62 | Removing an unparseable body line changes nothing |
| ScanTable.EntryExactly | src/sta/types.rs:22-38 | A body line is an entry exactly when it is five columns between tabs with a signed number third and a name that decodes last, and it holds them in their order |
| Text.SignedExactly | src/sta/types.rs:26 | The readings of a signal are exactly the decimal spellings of a signed number |
| ScanTable.TableRoundTrip | src/socket_handle.rs:147-151 | A written table with encoded names, empty last name included, reads back through the reply's newline-only trim |
| Delivery.TableReplied | src/socket_handle.rs:142-162 | So the bytes of a written table are answered with its entries, sorted |
| Credentials.FillBssid | src/sta/types.rs:324-339 | The loop that fills the octet array computes the parser's specification |
| Credentials.BssidAccepted | src/sta/types.rs:321-347 | Exactly six two-hex-digit octets joined by colons are accepted, and print as the lowercase of the input |
| Credentials.BssidRoundTrip | src/sta/types.rs:321-347 | Parsing a printed address gives it back |
| Credentials.BssidExactly | src/sta/types.rs:321-347 | A text is read as an address if and only if its lowercase is that address printed |
| Credentials.PrintedAddress | src/sta/types.rs:342-347 | An address is printed as its six bytes in order, two lowercase digits each, with colons between |
| Credentials.PskRoundTrip | src/sta/types.rs:263-284 | Parsing the field of a valid key without its quotes gives the same variant and contents |
| Credentials.PskAccepted | src/sta/types.rs:246-284 | 64 hex digits are a raw key and print as their lowercase; everything else is a passphrase exactly when valid, so no passphrase is read as a raw key |
| Credentials.PskExactly | src/sta/types.rs:246-284 | A text is read as a raw key if and only if its lowercase is the hexadecimal form of its 32 bytes, and as a passphrase if and only if it is 8 to 63 printable characters other than the quote |
| SetNetwork.CommandReadable | src/sta/mod.rs:235-250 | A reader that knows nothing of the writer recovers network and parameter from every command |
| SetNetwork.CommandInjective | src/sta/mod.rs:235-250 | Different settings give different commands |
| SetNetwork.CommandPrintable | src/sta/mod.rs:314-320 | No command holds a control byte, whatever the SSID |
| SetNetwork.EscapedExactly | src/sta/mod.rs:314-320 | An SSID is quoted exactly when it is graphic ASCII without a quote, and otherwise written as the hexadecimal digits of its bytes |
| SetNetwork.GetNetworkUndoesExactly | src/sta/types.rs:76-79 | Reading an encoded SSID back gives it if and only if it is graphic ASCII without quote and backslash |

## Left out

- Guarantees.OpenArithmetic: the clock counts milliseconds that pass between steps; an open's deadline is noticed after the connect attempt that is due at the same moment, in either order.
- Exchanges.CommandOutcome: `ParsingResponse` keeps the reply's bytes, not the parser's error or the lossy text.
- StatusReply.Deserialize: the texts of serde errors are not modelled; inside the runtime a bad status is a bad status, whichever field was visited first.
- ScanTable.CollectResults: `sort_by_key` is taken at its contract, a stable sort; the scan flags stay uninterpreted.
- Attach.LogLevelConfirmed: a reply that is readable at the very moment of the timeout counts as read; the other choice is a later arrival.
- Liveness and fairness: that an event, a reply or a poll ever comes is up to the inputs, so only what a step does when it comes is stated.
- A client blocked on a full channel has not sent yet; a client that gives up waiting is not seen, as the runtime ignores whether an answer is taken.
- Whether a Connected event was caused by the pending select: the code cannot know, and nothing is claimed.
- Dropping the `run` future from outside, replies longer than the buffer, and I/O errors other than permission denied and a general error.
- `ClientChannelClosed`: it cannot occur while the station owns a sender of its own channel.
- Broadcasts, logging and redaction, set-up builders, error texts, temporary directories and paths.
- The classification of event texts by substring; in the model an event arrives classified, and the reply to ATTACH is an unknown event.
- Serde's dispatch for booleans, numbers, options and sequences (`src/config.rs:105-163` but for strings): the status parser uses strings only.
- The access point's run loop and types (`src/ap/mod.rs`, `src/ap/types.rs`): the loop is the station's without scans and selects.
- Machine words are 64 bits wide: `usize` and `isize` readings overflow there; counters of the runtime are unbounded.
- `hex::encode`, `hex::decode_to_slice` and `str` methods are modelled by what they are documented to do.
