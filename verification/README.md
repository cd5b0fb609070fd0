# Harmonia's NAR streaming stack, modelled and verified

Harmonia serves store paths as Nix archives (NARs). This project models, in Dafny 4.11, the code
that prints, parses, delimits and hands over NARs as streams, the code that turns file trees into
events and back, the byte-range replies, and the pool of daemon connections; and it proves what
that code is for.

`dafny verify dfyconfig.toml` checks everything. The files, from the bottom up:

| file | what it holds |
|---|---|
| `wire.dfy` | bytes, 64-bit little-endian words, `calc_aligned` and `calc_padding` with their wrap-around |
| `streams.dfy` | the readers and writers handed to the code: every chunking, short write and `Pending` |
| `grammar.dfy` | trees, the recursive grammar, plain and concrete syntax, events, tokens |
| `choice.dfy`, `machine.dfy`, `chunking.dfy` | `Inner::drive` as a function, and its independence of chunking |
| `recogniser.dfy`, `viable.dfy`, `levels.dfy`, `unambiguous.dfy` | machine and grammar: acceptance, delimiting, failing at once, the level, unique derivations |
| `radix_tree.dfy`, `inner.dfy` | the array-backed radix tree, and the machine with its loop and its two trees |
| `nar_reader.dfy`, `padded_reader.dfy`, `lending.dfy`, `compat.dfy` | sub-streams, and handing a stream over and back |
| `parse.dfy`, `parse_sound.dfy`, `parser.dfy`, `session.dfy` | the parser as a function, what it accepts, as a class, and in whole runs |
| `event_log.dfy`, `channel.dfy`, `writer.dfy` | what events stand for on the wire, the chunking channel, and the writer |
| `limited.dfy`, `add_multiple.dfy` | length-prefixed strings; many path infos and NARs on one stream |
| `case_hack.dfy`, `file_tree.dfy`, `dumper.dfy`, `restorer.dfy` | file trees to events and back, and the case hack |
| `range.dfy` | the range stream, and the reply that it makes |
| `pool.dfy` | the connection pool, its critical sections and every interleaving of its tasks |

How the world outside is modelled:

- A reader is a byte sequence with a position and a window of visible bytes that grows by any
  amount; a writer takes any non-empty part of what it is offered; either may answer `Pending` at
  any time, but only finitely often. The bodies of these classes are non-deterministic, so what is
  proved over them holds for every schedule. A field `waits` bounds how many `Pending` answers are
  still to come, with any bound at the start; channels, walks and background jobs have one too.
- Every machine accounts for its own `Pending`: its contract says that an answer of `Pending` used
  up a wait of the stream, or that the consumer of the last sub-stream still has it.
- Whole runs (`Sessions.Run`, `Writers.Send`, `AddMultiple.Receive`, ...) poll a machine up to a
  given number of times, for any number. They speak about the state after each prefix of the run,
  and say with how many polls it comes to its end: more than there are waits, events and bytes.
- Where the code parks in the middle of something, a ghost field holds what is still to come (the
  parser's `plan`, the writer's `log`, the item stream's `plan`), and every method says what it does to it.
- `drive` is proved twice: `Machine.Drive` is one recursive function on the whole buffer, and the
  class `NarMachine.Inner` refines it with the loop, the carried `RLookup` and the real trees.

## Results

- **Round trip.** What `NarWriter` writes for the events of any tree, `NarParser` reads back as the
  same events, for every schedule on both sides and every consumer that reads all or a part of each
  file, and with enough polls all of them (`Sessions.WriteThenRead`; for any bytes behind the NAR,
  `Sessions.ReadTree`).
- **Recogniser, parser and grammar.** The flat machine accepts exactly what the grammar derives, fails
  at the first byte that is wrong (`Viable.FailsAtOnce`), its level is the number of open directories
  at every byte short of the end, derivations are unique, and no NAR is a proper prefix of another. This holds for all declared lengths, with the code's 64-bit
  alignment; where that wraps, `Unambiguous.WrappedLength` gives an input that is accepted and is no
  proper NAR. The parser accepts exactly the proper ones (`ParserSound.ParserIsGrammar`,
  `ParserSound.ParsesIffProper`), and of the others `ParserSound.ParseFate` says whether they end in
  an error or in a panic.
- **Radix tree.** Insertion and resumable lookup agree with a prefix-free map.
- **Hand-off.** Sub-streams deliver exactly their bytes, and draining leaves the stream at exactly
  the right byte, across any list of items (`AddMultiple.WriteThenReceive`). On any other stream the
  items come out up to the first that is not there; where every NAR is read to its end, the error
  comes exactly if something is wrong with the stream (`AddMultiple.Receive`, `AddMultiple.GoodIff`).
- **Trees.** Dumping what was restored gives back the events, with and without the case hack. What
  this asks of the names is exact, for any file system that takes some names for the same
  (`Restorers.RestoreTree`, `Restorers.RestoreThenDumpIff`): for one that compares bytes
  (`Restorers.RestoreByBytes`, `Restorers.RoundTripByBytes`), and, with the hack, for one that ignores
  case (`Restorers.RestoreIgnoringCase`, `Restorers.RoundTripIgnoringCase`).
- **Ranges.** A range reply is that slice of the encoding, as section 14.35.1 of RFC 2616 asks.
- **Pool.** In every interleaving the counters are exact, the capacity is kept, no connection has
  two owners or is lost. While a task waits there is an active connection, or a notification is under
  way, except after a failed connection attempt in one exactly described situation
  (`PoolRuns.FailedAttempt`, `PoolRuns.StrandedWaiter`). The stronger property, that every free place
  has a notification under way while a task waits, fails in two exactly described situations
  (`PoolRuns.StepCovered`, `PoolRuns.PoolCoveredIff`), and needs no failed attempt to fail
  (`PoolRuns.LostNotification`).

Where the code departs from its comments or from what one might expect:

- A failed attempt to connect frees a place in the pool and notifies nobody.
- Two drops that notify before the waiting tasks have parked leave one permit, not two: a connection can
  be idle while a task stays parked until the next drop.
- A declared length within 7 of 2^64 is aligned to zero. The recogniser then goes on as if the string
  had no bytes. On such a name or link target the parser panics, in `split_to`
  (`ParserSound.WrappedName`); of such a file it offers the whole rest of the stream as contents, and
  then fails (`ParserSound.WrappedContents`). The latter describes release builds: the sum in
  `remaining_usize` (`padded_reader.rs`, line 51) overflows, which is a panic in debug builds.
- The counter `level` is still 1 when the end of a NAR with a directory at its root is reached
  (`Levels.LevelAtEnd`).
- A name that contains the case-hack suffix loses it when it is dumped, unless it collided
  (`CaseHack.StripHacked`), and can be what a collision is called, in which case restoring fails
  (`CaseHack.MarkedInAdvance`, `Restorers.RestoreByBytes`). On a file system that ignores case so does a
  name that is what a collision is called but for case (`Restorers.RestoreIgnoringCase`).

## Model

| member | source | states |
|---|---|---|
| `Wire.CalcAligned` | harmonia-utils-io/src/lib.rs:34-36 | a multiple of eight, the next one from the length on, except that lengths within 7 of 2^64 wrap to zero |
| `Wire.CalcPadding` | harmonia-utils-io/src/lib.rs:38-41 | always less than eight, and completes the length to its aligned form |
| `Wire.Word64` | harmonia-utils-io/src/read_u64.rs:57 | 64-bit little-endian encoding and decoding invert each other, both ways |
| `Wire.LittleEndian` | harmonia-utils-io/src/read_u64.rs:57 | a word is the sum of its eight bytes with the powers of 256, the first byte the least significant |
| `Grammar.Pack` | harmonia-nar/src/archive/writer.rs:74-78 | a padded string gives back exactly the string it was made of, and its padding is zero |
| `Grammar.PrintRootIsBody` | harmonia-nar/src/archive/read_nar.rs:3-30 | the grammar's bytes are the code's tokens and strings, one after the other |
| `Grammar.TokenBytes` | harmonia-nar/src/archive/read_nar.rs:33-40 | the eight tokens of the format, byte by byte |
| `Machine.AlternativesArePrefixFree` | harmonia-nar/src/archive/read_nar.rs:269-286 | no alternative of a choice is a prefix of another |
| `Machine.IterValid` | harmonia-nar/src/archive/read_nar.rs:248-503 | every iteration keeps the state valid, and uses a byte or lowers the rank of the state |
| `Machine.Drive` | harmonia-nar/src/archive/read_nar.rs:248-503 | a call ends in a valid state, uses its whole buffer unless it stops for its caller, and never parks at a finished choice |
| `Chunking.IterChunk` | harmonia-nar/src/archive/read_nar.rs:207-223 | one iteration on a longer buffer agrees with the iteration on its start |
| `Chunking.DriveChunk` | harmonia-nar/src/archive/read_nar.rs:248-503 | driving `a` then `b` is driving `a + b`: same state, level, total and verdict |
| `Chunking.StopIsAhead` | harmonia-nar/src/archive/read_nar.rs:248-503 | from a stored state, a stop is at least one byte away |
| `Recogniser.RecogniserIsGrammar` | harmonia-nar/src/archive/read_nar.rs:224-504 | `drive` reaches `Eof` exactly at the end of a byte string if and only if the grammar derives it, padding unconstrained |
| `Recogniser.ExactDelimiting` | harmonia-nar/src/archive/read_nar.rs:248-503 | whatever follows a NAR, the machine stops right behind it |
| `Recogniser.NoProperPrefix` | harmonia-nar/src/archive/read_nar.rs:3-30 | no NAR is a proper prefix of another |
| `Viable.Completable` | harmonia-nar/src/archive/read_nar.rs:224-504 | from every state and at every level, the machine can be brought to the end of a NAR |
| `Viable.FailsAtOnce` | harmonia-nar/src/archive/read_nar.rs:224-504 | `drive` fails on a byte string if and only if no NAR starts with it and it does not start with a NAR, so at the first byte that is wrong |
| `Levels.LevelIsOpenDirectories` | harmonia-nar/src/archive/read_nar.rs:203-247 | after any number of bytes of a NAR short of its end, `level` is the number of open directories |
| `Levels.LevelAtEnd` | harmonia-nar/src/archive/read_nar.rs:232-247 | at the end of a NAR the level is one for a directory and zero otherwise |
| `Unambiguous.DerivationUnique` | harmonia-nar/src/archive/read_nar.rs:3-30 | a byte string has at most one derivation |
| `Unambiguous.EncodeInjective` | harmonia-nar/src/archive/writer.rs:136-197 | different trees have different encodings |
| `Unambiguous.WrappedLength` | harmonia-utils-io/src/lib.rs:34-36 | a file that declares 2^64 - 1 bytes and has none is derived with the code's arithmetic, and by no proper derivation |
| `Unambiguous.ProperIff` | harmonia-utils-io/src/lib.rs:34-36 | a derived string is a proper NAR if and only if no declared length of its derivation wraps |
| `RadixTree.Arena.AddLeafInv` | harmonia-nar/src/archive/radix_tree.rs:66-105 | adding a leaf and an edge keeps the tree and all older tokens |
| `RadixTree.Arena.DivideInv` | harmonia-nar/src/archive/radix_tree.rs:107-151 | splitting an edge keeps the tree and all older tokens |
| `RadixTree.Arena.AnswerIsVerdict` | harmonia-nar/src/archive/radix_tree.rs:166-222 | a lookup matches, needs more or mismatches exactly as the prefix-free map of tokens says, with the right token and count |
| `RadixTree.Arena.WhereTheyDiffer` | harmonia-nar/src/archive/radix_tree.rs:166-222 | a mismatch is reported at the longest prefix shared with some token |
| `RadixTree.Arena.ResumableLookup` | harmonia-nar/src/archive/radix_tree.rs:166-222 | two lookups on the parts of an input end like one lookup on the whole, at the same node and edge, with the counts adding up |
| `RadixTree.RTree.Lookup` | harmonia-nar/src/archive/radix_tree.rs:166-222 | the loop over nodes and edges gives that answer |
| `RadixTree.RTree.GetValue` | harmonia-nar/src/archive/radix_tree.rs:153-164 | the value of the token that leads to the leaf |
| `RadixTree.RTree.Split` | harmonia-nar/src/archive/radix_tree.rs:74-111 | an edge is divided in place, and the tokens stay |
| `RadixTree.RTree.Append` | harmonia-nar/src/archive/radix_tree.rs:66-105 | a leaf is added in place, for exactly one more token |
| `RadixTree.RTree.Insert` | harmonia-nar/src/archive/radix_tree.rs:113-151 | the map of tokens gains exactly the new one; it fails only on a token that is a prefix of another or for lack of room |
| `NarMachine.NodeSelect` | harmonia-nar/src/archive/read_nar.rs:269-286 | the table of node kinds is built without a panic in 7 nodes and 6 edges, and holds the four tokens |
| `NarMachine.EntrySelect` | harmonia-nar/src/archive/read_nar.rs:410-415 | the table of a directory's choices is built without a panic, and holds the two tokens |
| `NarMachine.AnswerIsChoice` | harmonia-nar/src/archive/read_nar.rs:287-300 | resuming a stored lookup is what the specification of the choice says |
| `NarMachine.Inner.Iterate` | harmonia-nar/src/archive/read_nar.rs:248-503 | one iteration of the loop agrees with the specification |
| `NarMachine.Inner.Loop` | harmonia-nar/src/archive/read_nar.rs:248-503 | the loop terminates and computes `Machine.Drive` |
| `NarMachine.Inner.Drive` | harmonia-nar/src/archive/read_nar.rs:248-503 | `drive` refines the specification in state, level, count and error |
| `NarMachine.Inner.BumpNext` | harmonia-nar/src/archive/read_nar.rs:228-247 | the state and the level behind what the caller has dealt with |
| `NarReaders.Standing` | harmonia-nar/src/archive/read_nar.rs:532-589 | where a partly driven stream stands with respect to the NAR at its start |
| `NarReaders.NarReader.PollFillBuf` | harmonia-nar/src/archive/read_nar.rs:536-576 | only bytes of the NAR, none exactly when all were consumed, no error if the stream starts with a NAR; waits only if the stream does |
| `NarReaders.NarReader.Consume` | harmonia-nar/src/archive/read_nar.rs:577-589 | the reader and the stream advance together |
| `NarReaders.NarReader.PollDrain` | harmonia-nar/src/archive/read_nar.rs:779-793 | when it is done, the stream stands right behind the NAR |
| `PaddedReaders.PaddedReader.constructor` | harmonia-nar/src/padded_reader.rs:32-41 | the string starts where the stream stands, and ends with its padding |
| `PaddedReaders.PaddedReader.PollFillBuf` | harmonia-nar/src/padded_reader.rs:192-239 | the next bytes of the string, never padding; empty only at its end or, early, where the stream ends before the last word; an error only if the stream ends inside the last word and its padding; waits only if the stream does |
| `PaddedReaders.PaddedReader.Consume` | harmonia-nar/src/padded_reader.rs:244-277 | exactly that many bytes of the string are consumed, and with the last one the padding |
| `PaddedReaders.PaddedReader.PollDrain` | harmonia-nar/src/padded_reader.rs:283-292 | when it is done, the stream has advanced by the aligned length, or has ended before the last word; an error only if the stream ends inside that |
| `Lendings.Loan.ReturnReader` | harmonia-utils-io/src/lending.rs:54-66 | the reader goes from the consumer to the channel, once |
| `Lendings.Loan.PollFillBuf` | harmonia-utils-io/src/lending.rs:134-144 | the bytes of the sub-stream; at its end, and only there, the reader goes back; it waits only if the stream does |
| `Lendings.Lending.PollReady` | harmonia-utils-io/src/lending.rs:184-203 | waits only while the reader is out or the stream makes it wait; then drains the reader, and has the stream at the byte behind the sub-stream |
| `Lendings.Lending.Lend` | harmonia-utils-io/src/lending.rs:226-244 | only an available stream is lent, and it is then with the consumer alone |
| `Compat.BufReadCompat.PollFillBuf` | harmonia-utils-io/src/compat.rs:53-63 | the cached buffer shows the sub-stream in order; it is empty exactly when all was consumed |
| `Compat.BufReadCompat.Consume` | harmonia-utils-io/src/compat.rs:64-74 | cache and inner reader advance together |
| `Parsing.ParseAdvance` | harmonia-nar/src/archive/parser.rs:70-81 | driving over a piece of the stream does not change which events will come out |
| `Parsing.ParsePrinted` | harmonia-nar/src/archive/parser.rs:52-138 | any proper derivation, with any padding and anything behind it, parses into the events of its tree and leaves the rest |
| `Parsing.ParseEncoded` | harmonia-nar/src/archive/parser.rs:52-138 | encoding, then parsing, gives the events of the tree |
| `ParserSound.ParseSound` | harmonia-nar/src/archive/parser.rs:52-138 | what parses without an error is a proper NAR and a rest, and the events are those of its tree |
| `ParserSound.ParserIsGrammar` | harmonia-nar/src/archive/parser.rs:52-138 | a stream below 2^64 bytes parses without an error and leaves `rest` if and only if it is a proper NAR followed by `rest` |
| `ParserSound.ParsesIffProper` | harmonia-nar/src/archive/parser.rs:83-97 | of what the recogniser accepts, the parser accepts exactly the derivations without a wrapped length |
| `ParserSound.WrappedContents` | harmonia-nar/src/archive/parser.rs:83-97 | a file that declares 2^64 - 1 bytes is reported with the whole rest of the stream as its contents, followed by an error |
| `ParserSound.ParseFate` | harmonia-nar/src/archive/parser.rs:83-129 | how parsing ends for what the recogniser accepts: well without a wrapped length, and otherwise as the first one says, in a panic for a name or link target and in an error for contents |
| `ParserSound.WrappedName` | harmonia-nar/src/archive/parser.rs:111-125 | inputs on which the parser panics: an entry name that declares more than 2^64 - 8 bytes |
| `Parsers.NarParser.Reclaim` | harmonia-nar/src/archive/parser.rs:52-60 | the stream comes back behind the padding of the last file, whatever its consumer read |
| `Parsers.NarParser.Feed` | harmonia-nar/src/archive/parser.rs:78-81 | fill, drive and consume leave what is to come unchanged, or the rest of the stream is bad |
| `Parsers.NarParser.LendFile` | harmonia-nar/src/archive/parser.rs:83-97 | a file event with the right name, flag and size, and a reader positioned at its contents |
| `Parsers.NarParser.TakeString` | harmonia-nar/src/archive/parser.rs:98-129 | names and targets are read whole, padding included; a declared length above the aligned one, and nothing else, makes it panic |
| `Parsers.NarParser.StillValid` | harmonia-nar/src/archive/parser.rs:82-97 | nothing that the consumer does to its reader disturbs the parser |
| `Parsers.NarParser.PollNext` | harmonia-nar/src/archive/parser.rs:52-138 | the next of the events that are to come; the end only at the end of the NAR; an error only if the stream is bad, a panic only at a wrapped name or target; `Pending` only if the last file is still out or the stream made it wait |
| `Sessions.Use` | harmonia-utils-io/src/compat.rs:49-74 | a consumer with any schedule gets a prefix of the sub-stream, and all of it when it reads to the end, which takes no more polls than waits and bytes |
| `Sessions.Run` | harmonia-nar/src/archive/parser.rs:52-138 | in a whole run the events come out in order, each file with the part of its contents that was read; with more polls than waits, events and bytes the run ends |
| `Sessions.ReadTree` | harmonia-nar/src/archive/parser.rs:52-138 | the encoding of a tree, with anything behind it, never fails, gives the events of the tree, and leaves what is behind it; with enough polls to the end |
| `Sessions.WriteTree` | harmonia-nar/src/archive/writer.rs:80-214 | at every moment the sink holds a prefix of the encoding, and after the close all of it, a whole number of words; with enough polls it is closed |
| `Sessions.WriteThenRead` | harmonia-nar/src/archive/parser.rs:52-138 | writing the events of a tree and parsing the bytes gives back the events, and with enough polls all of them |
| `EventLog.LogIsEncode` | harmonia-nar/src/archive/writer.rs:136-197 | the flat bytes of the events of a tree, with only a level, are its recursive encoding |
| `EventLog.PrintAligned` | harmonia-nar/src/archive/read_nar.rs:3-30 | every derivation is a whole number of words |
| `Writers.NarWriter.FlushBuffer` | harmonia-nar/src/archive/writer.rs:92-115 | the buffer goes out first, and the padding waits in it for the contents |
| `Writers.NarWriter.CopyContents` | harmonia-nar/src/archive/writer.rs:116-132 | the contents go past the buffer, in order, and then the node is closed |
| `Writers.NarWriter.PollReady` | harmonia-nar/src/archive/writer.rs:87-134 | what was written and what is owed stay the bytes of the events sent; when ready, no contents are pending, and the buffer is within the cutoff or holds the end of a file; `Pending` only if the output or the reader made it wait, an error only if the output failed |
| `Writers.NarWriter.PollFlushBuf` | harmonia-nar/src/archive/writer.rs:59-72 | when it is done, everything is written; `Pending` and errors as for `PollReady` |
| `Writers.NarWriter.PollFlush` | harmonia-nar/src/archive/writer.rs:199-205 | when it is done, everything is written and nothing is left in a channel; `Pending` and errors as for `PollReady` |
| `Writers.NarWriter.PollClose` | harmonia-nar/src/archive/writer.rs:207-213 | when it is done, everything is written and the output is shut down |
| `Writers.NarWriter.PutNixSlice` | harmonia-nar/src/archive/writer.rs:74-78 | the buffer gains the length word, the string and its zero padding |
| `Writers.NarWriter.StartSend` | harmonia-nar/src/archive/writer.rs:136-197 | the writer owes the bytes of exactly one more event |
| `Writers.NarWriter.Behind` | harmonia-nar/src/archive/writer.rs:87-134 | what is written is always a prefix of what the events stand for: padding never overtakes contents |
| `Writers.Send` | harmonia-nar/src/archive/writer.rs:80-214 | a whole run, for any bracketed events, any schedule, any flushes in between and any output, writes exactly what the events stand for; with more polls than waits and events it is closed, or the output failed |
| `Limited.DecodeIff` | harmonia-utils-io/src/try_read_bytes_limited.rs:37-100 | a string is decoded if and only if the stream starts with its encoding and its length is in range |
| `Limited.DecodeOtherwise` | harmonia-utils-io/src/try_read_bytes_limited.rs:37-100 | an end is decoded if and only if the stream is empty, and an error if and only if it is not empty and does not start with the encoding of a string in range |
| `Limited.DecodeEncoded` | harmonia-utils-io/src/try_read_bytes_limited.rs:37-100 | decoding inverts `put_nix_slice`, leaves what follows, and rejects lengths out of range |
| `Limited.DecodeCanonical` | harmonia-utils-io/src/try_read_bytes_limited.rs:82-91 | on success the consumed bytes are the encoding of the result |
| `Limited.TryReadU64.PollReader` | harmonia-utils-io/src/read_u64.rs:34-59 | the word at the start, under any partial reads; nothing only at the very end; an error only inside a word; waits only if the stream does |
| `Limited.TryReadBytesLimited.PollLength` | harmonia-utils-io/src/try_read_bytes_limited.rs:47-76 | the length is checked against the range and against overflow; nothing is found exactly at the very end of the stream, and a word that is cut short is an error |
| `Limited.TryReadBytesLimited.PollContents` | harmonia-utils-io/src/try_read_bytes_limited.rs:77-96 | the string with its padding is taken at once, and non-zero padding is an error |
| `Limited.TryReadBytesLimited.PollReader` | harmonia-utils-io/src/try_read_bytes_limited.rs:37-100 | whatever the schedule, the answer is that of decoding the whole stream: nothing exactly at its end, an error exactly if it is not empty and no string in range is encoded there; waits only if the stream does |
| `AddMultiple.ComingFlat` | harmonia-protocol/src/daemon_wire/add_multiple_to_store.rs:99-120 | the bytes of a list of items, with anything behind them, come to exactly those items |
| `AddMultiple.GoodIff` | harmonia-protocol/src/daemon_wire/add_multiple_to_store.rs:99-120 | nothing is wrong with a stream if and only if it starts with as many infos and NARs as were announced |
| `AddMultiple.ItemStream.Await` | harmonia-protocol/src/daemon_wire/add_multiple_to_store.rs:107 | the stream is available again behind the previous NAR, which is an error exactly if there is none; `Pending` as for `PollNext` |
| `AddMultiple.ItemStream.TakeItem` | harmonia-protocol/src/daemon_wire/add_multiple_to_store.rs:107-116 | the info and a reader for the NAR behind it, or an error exactly if there is no info |
| `AddMultiple.ItemStream.PollNext` | harmonia-protocol/src/daemon_wire/add_multiple_to_store.rs:99-120 | on any stream, the next info is read from exactly the byte behind the previous NAR, and what follows it is lent as its NAR; an error exactly where there is no info or the previous NAR does not end; `Pending` only if the last NAR is still out or the stream made it wait |
| `AddMultiple.Receive` | harmonia-protocol/src/daemon_wire/add_multiple_to_store.rs:90-122 | on any stream and for every consumer that reads any part of each NAR, the items come out in order; with more polls than waits, items and bytes there is an end or an error, an error only if something is wrong with the stream, and, if every NAR is read to its end, an end only if nothing is |
| `AddMultiple.WriteStream` | harmonia-protocol/src/daemon_wire/add_multiple_to_store.rs:17-64 | succeeds exactly if the stream has as many good items as it says; what is written is the count and the items, as far as they go |
| `AddMultiple.WriteThenReceive` | harmonia-protocol/src/daemon_wire/add_multiple_to_store.rs:90-122 | what was written for a list of items is read back item by item, with enough polls to the last |
| `CaseHack.RFind` | harmonia-nar/src/archive/dumper.rs:97-104 | the last place of the suffix, if there is one |
| `CaseHack.SuffixBytes` | harmonia-nar/src/archive/mod.rs:24 | the fifteen bytes of the suffix |
| `CaseHack.DecimalIs` | harmonia-nar/src/archive/restorer.rs:315 | the digits of a marker, each with the power of ten of its place, come to its number, without zeros in front |
| `CaseHack.StripClean` | harmonia-nar/src/archive/dumper.rs:106-111 | stripping leaves a name alone if and only if it does not contain the suffix |
| `CaseHack.StripMarked` | harmonia-nar/src/archive/dumper.rs:106-111 | a marked name loses exactly its marker |
| `CaseHack.MarkerInjective` | harmonia-nar/src/archive/restorer.rs:302-325 | a marked name determines the name and the number |
| `CaseHack.StripHacked` | harmonia-nar/src/archive/restorer.rs:302-325 | stripping undoes `hack_name` if and only if the name collided or does not contain the suffix |
| `CaseHack.HackedDistinctIff` | harmonia-nar/src/archive/restorer.rs:302-325 | the new names of a directory are pairwise distinct ignoring case if and only if no name looks, in lower case, like a collision of another that there is |
| `CaseHack.HackedAt` | harmonia-nar/src/archive/restorer.rs:302-325 | a name is marked with the number of earlier names that differ from it in case only |
| `CaseHack.HackedDifferentIff` | harmonia-nar/src/archive/restorer.rs:302-325 | the new names are pairwise different if and only if no name is what a collision will be called |
| `CaseHack.UnmarkedUnclashed` | harmonia-nar/src/archive/restorer.rs:302-325 | names that do not contain the suffix in any case meet the first condition |
| `CaseHack.MarkedInAdvance` | harmonia-nar/src/archive/restorer.rs:302-325 | an input on which two different names get the same new name |
| `FileTree.WalkSorted` | harmonia-nar/src/archive/dumper.rs:89-95 | the pre-order walk of a tree is sorted as the dumper sorts, if its shown names are those of a sorted tree |
| `FileTree.NameOrder` | harmonia-nar/src/archive/dumper.rs:60-64 | the order of names: the first byte in which two names differ decides, and a name that goes on comes after one that ends |
| `FileTree.SiblingOrder` | harmonia-nar/src/archive/dumper.rs:89-95 | in every walk, two names of one directory are listed in the order of what they show |
| `FileTree.ByteOrder` | harmonia-nar/src/archive/dumper.rs:89-95 | said in bytes: the smaller of the first two bytes that differ comes first |
| `FileTree.ParentFirst` | harmonia-nar/src/archive/dumper.rs:56-64 | in every walk, a directory is listed before everything under it |
| `FileTree.SortedUnique` | harmonia-nar/src/archive/dumper.rs:89-95 | a file system has only one sorted walk |
| `FileTree.NoTies` | harmonia-nar/src/archive/dumper.rs:89-95 | a walk in which no two entries show the same path is sorted without ties |
| `FileTree.WalkExists` | harmonia-nar/src/archive/dumper.rs:89-95 | what a tree adds to an empty file system can be walked in the order of the dumper |
| `Dumpers.DumpIsEvents` | harmonia-nar/src/archive/dumper.rs:387-460 | directory, level and one entry of look-ahead give exactly the recursive events, with the level never below zero |
| `Dumpers.WalkState.NextChunk` | harmonia-nar/src/archive/dumper.rs:309-354 | fetching a chunk loses and reorders nothing; it has 25 entries, or as many as there are, and in that case alone the walk is over |
| `Dumpers.WalkState.PollNext` | harmonia-nar/src/archive/dumper.rs:286-308 | the entries come out in the order of the walk |
| `Dumpers.NarDumper.PollNext` | harmonia-nar/src/archive/dumper.rs:387-460 | the next of the events that are to come, and the end only when there are none; waits only for the walk |
| `Restorers.RestoreNode` | harmonia-nar/src/archive/restorer.rs:148-259 | the events of a node add exactly its renamed tree, and leave path, stack and counters as they were around it |
| `Restorers.RestoreKeeps` | harmonia-nar/src/archive/restorer.rs:148-259 | whatever events are sent: everything that is made lies in a directory, no path is made twice, and nothing that was there is changed |
| `Restorers.RestoreTree` | harmonia-nar/src/archive/restorer.rs:148-259 | on any file system, restoring a tree with distinct, valid names succeeds if and only if the file system tells the new names of every directory apart; it then holds the renamed tree |
| `Restorers.NodeFails` | harmonia-nar/src/archive/restorer.rs:148-259 | if the file system takes two new names of some directory for the same, restoring fails |
| `Restorers.RestoreByBytes` | harmonia-nar/src/archive/restorer.rs:148-259 | where paths are compared byte by byte, restoring succeeds if and only if no name is what a collision will be called |
| `Restorers.RestorePlainly` | harmonia-nar/src/archive/restorer.rs:148-259 | without the hack, restoring succeeds if and only if the file system tells the names of every directory apart |
| `Restorers.RestoreIgnoringCase` | harmonia-nar/src/archive/restorer.rs:148-259 | with the hack, on a file system that ignores case, restoring succeeds if and only if the names of no directory clash with its own markers in lower case |
| `Restorers.RenamedDistinctIff` | harmonia-nar/src/archive/restorer.rs:302-325 | the new names are distinct in every directory if and only if that condition holds of the tree |
| `Restorers.RestoredCaseDistinctIff` | harmonia-nar/src/archive/restorer.rs:302-325 | in every directory of a restored tree names are pairwise distinct ignoring case if and only if the names of no directory of the original clash with its own markers; nested directories have their own counters |
| `Restorers.UnmarkedTree` | harmonia-nar/src/archive/restorer.rs:302-325 | that is so if no name contains the suffix in any case |
| `Restorers.RestoreThenDumpIff` | harmonia-nar/src/archive/restorer.rs:148-259 | for every tree with distinct, sorted, valid names: restoring succeeds and every walk of what was made dumps to the events, if and only if the file system tells the new names apart and every name collides with an earlier one or does not contain the suffix; there is such a walk |
| `Restorers.RoundTripByBytes` | harmonia-nar/src/archive/restorer.rs:148-259 | where paths are compared byte by byte, the condition on the suffix alone is exact |
| `Restorers.RoundTripIgnoringCase` | harmonia-nar/src/archive/restorer.rs:148-259 | with the hack, on a file system that ignores case, it is exact together with the condition on clashes in lower case |
| `Restorers.WalkDumps` | harmonia-nar/src/archive/dumper.rs:387-460 | each single walk of what was restored, ties in any order, dumps to the events if and only if that condition holds |
| `Restorers.CleanRecovers` | harmonia-nar/src/archive/restorer.rs:302-325 | that is so without the hack, and whenever no name contains the suffix |
| `Restorers.RestoreThenDump` | harmonia-nar/src/archive/restorer.rs:148-259 | without the hack, or if no name contains the suffix, dumping what was restored, as any walk lists it, gives back the events if and only if the file system tells the new names apart |
| `Restorers.NarRestorer.Rename` | harmonia-nar/src/archive/restorer.rs:302-325 | the new name and the new counter |
| `Restorers.NarRestorer.StartSend` | harmonia-nar/src/archive/restorer.rs:148-259 | path, counters, stack and the pending creation are those of the specification |
| `Restorers.NarRestorer.PollReady` | harmonia-nar/src/archive/restorer.rs:129-146 | the pending creation is done, or its failure is reported |
| `Restorers.RestoreAll` | harmonia-nar/src/archive/restorer.rs:148-259 | a whole run restores what the specification says, and fails only if that fails; with more polls than waits and events it ends or fails |
| `Restorers.DumpAll` | harmonia-nar/src/archive/dumper.rs:387-460 | a whole run gives the events of the walk, in order; with more polls than waits and events it ends |
| `Channels.ChannelWriter.PollEmitChunk` | harmonia-nar/src/archive/byte_stream.rs:45-63 | the whole buffer is sent as one chunk, non-empty and at most `chunk_size`, and nothing is lost; it waits only while the channel is full, and fails only when its receiver is gone |
| `Channels.ChannelWriter.PollWrite` | harmonia-nar/src/archive/byte_stream.rs:66-82 | as much of what is offered as fits is accepted, at least a byte, and conserved; only full chunks are sent |
| `Ranges.RangeStream.Next` | harmonia-cache/src/nar.rs:201-252 | the next part of the range, never empty; an error as soon as it is read; the end exactly at the end of the stream or at a chunk beyond the offset with nothing of the range from it on |
| `Ranges.Collect` | harmonia-cache/src/nar.rs:201-252 | for every chunking, with empty chunks and errors, the output is the slice of the data; it fails if and only if there is an error that no chunk which ends the reply precedes |
| `Ranges.CutIsSlice` | harmonia-cache/src/nar.rs:201-252 | the slice from the offset to the offset plus the length, cut at the end of the data |
| `Ranges.RangeReply` | harmonia-cache/src/nar.rs:201-252 | a range reply, written by the NAR writer through the channel, is at every moment a prefix of that slice of the encoding of the tree, also if the dump or the channel fails; when it is done it is the slice, and with enough polls it is done, if the receiver stays |
| `Pool.PoolState.TryAcquire` | harmonia-store-remote/src/pool.rs:231-320 | the section under the lock keeps the invariant; it gives the oldest idle connection that has not expired, only if there is none a new one, and only if there is no place for that tells to wait |
| `Pool.IdleFirst` | harmonia-store-remote/src/pool.rs:241-266 | that choice, and that the connections behind the one that is reused stay idle in their order, without the expired |
| `Pool.FirstInFirstOut` | harmonia-store-remote/src/pool.rs:387-428 | a connection that is returned is reused after all that were idle before it |
| `Pool.PoolState.Return` | harmonia-store-remote/src/pool.rs:387-428 | the section of a drop keeps the invariant and is the specification's |
| `PoolRuns.StepAccounted` | harmonia-store-remote/src/pool.rs:177-320 | every step keeps: active count = guards + creations + drops not yet run, waiting count = tasks that still have to decrement it, active + idle within capacity |
| `PoolRuns.NothingSaturates` | harmonia-store-remote/src/pool.rs:199-292 | no saturating subtraction truncates, and the test in `drop` never fails |
| `PoolRuns.Conservation` | harmonia-store-remote/src/pool.rs:387-428 | connections come only from successful attempts, and go only when they expire or are marked as broken; a drop discards none |
| `PoolRuns.NoTwoOwners` | harmonia-store-remote/src/pool.rs:177-320 | no two tasks have one connection, and none has an idle one |
| `PoolRuns.StepNoticed` | harmonia-store-remote/src/pool.rs:192-226 | no step leaves a task parked beside a stored permit |
| `PoolRuns.StepAttended` | harmonia-store-remote/src/pool.rs:192-226 | every step but a failed attempt keeps: whenever a task waits there is a permit, a woken task, a pending notification or an active connection |
| `PoolRuns.FailedAttempt` | harmonia-store-remote/src/pool.rs:289-309 | a failed attempt strands a waiter if and only if it was the last active connection, a task waits, and no permit, notification or woken task is about |
| `PoolRuns.StrandedWaiter` | harmonia-store-remote/src/pool.rs:289-309 | a run in which that happens |
| `PoolRuns.StepCovered` | harmonia-store-remote/src/pool.rs:192-226 | a step keeps every free place covered by a notification under way while a task waits, if and only if it is not a failed attempt, or a notification that finds the permit stored, with no notification to spare |
| `PoolRuns.CoveredIsAttended` | harmonia-store-remote/src/pool.rs:192-226 | covered places are more than attended waiters |
| `PoolRuns.PoolCoveredIff` | harmonia-store-remote/src/pool.rs:192-226 | at every moment of a run the free places are covered, if and only if no such step is taken |
| `PoolRuns.LostNotification` | harmonia-store-remote/src/pool.rs:419-425 | a run of two places without a failed attempt, at whose end a connection is idle, a task waits, and a free place is not covered |
| `PoolRuns.PoolIsSafe` | harmonia-store-remote/src/pool.rs:177-320 | exact counters, capacity, one owner and no task parked beside a permit in every state of every run |
| `PoolRuns.PoolAttendedIff` | harmonia-store-remote/src/pool.rs:192-226 | at every moment of a run the waiters are attended to, if and only if no attempt fails at a moment at which it strands one |
| `PoolRuns.NoFailures` | harmonia-store-remote/src/pool.rs:192-226 | a run without failed attempts meets that condition |

## Left out

- I/O errors of the underlying readers, writers and file system, other than an early end of a stream, a closed channel, or a path that exists already; and streams that answer `Pending` for ever.
- `PaddedReader::poll_read`, `poll_force_fill_buf` of the sub-readers and the other `poll_read` wrappers; the parser uses only fill and consume.
- The difference between `NarReader` and `NarBytesReader` in the type of their buffers; one class models both.
- What happens after a panic: it is the end of a trace, and of a run.
- A writer that accepts zero bytes of file contents, on which the copying loop of `NarWriter` would spin; the model's writers take at least a byte.
- The compile-time array builders for the tokens; the tokens are functions with the same bytes.
- Of the eight-byte arrays for length words in the machine's state, only the bytes read so far are kept.
- Overflow of 64-bit sums in the range stream and of the 32-bit collision counter; both are unbounded here.
- The codec of path infos: any codec, self-delimiting for the round trip, and one info is read in one step.
- What the consumer of a NAR reads where the stream holds none, other than that it is an error to read on to the end.
- What an item stream does after an error; its run ends there.
- `NarWriter`'s cutoff is any number of at least 7; the value of the constant is not part of this model.
- `to_lowercase` is any function that leaves a case-hack marker behind a name as it is; the file system compares names by any function, and the one that ignores case by the same one as the hack.
- Paths are sequences of valid components; names with slashes, `.` and `..`, and UTF-8 conversion of names, are not modelled.
- Directory walking, memory mapping, semaphores and permission bits beyond one executable flag: a walk is the sorted pre-order list of the entries.
- Cancelled acquires of the pool, clocks (any set of idle connections may expire at any time) and metrics.
- Several notified tasks at once: `Notify` wakes any one parked task or stores one permit.
- HTTP handlers, TLS, templates, configuration, the database, hashes, signatures, derive macros and the daemon's operation tables.
