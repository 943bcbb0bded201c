# A cluster client, its reply reader and a file recovery pipeline, modelled and proved in Dafny

The project models five parts of the repository and proves what each is for.

1. **Cluster scatter and gather** (`hiredis-vip`). A multi-key MGET, DEL or MSET is formatted
   (`Resp`), parsed by a 27-state machine (`CommandParser` against the grammar in
   `CommandGrammar`, with its laws in `CommandLaws`, `CommandClasses` and `GrammarForms`), split by hash slot (`Crc16`, `KeySlot`,
   `KeyValue`) into freshly written sub-commands (`Fragments`, `FragmentLaws`), sent with bounded
   redirections (`Redirect`) and put together again (`Gather`). `Decoding` says what a server can
   make of the bytes it gets. `ScatterGather`, `Redirect` and `ClusterCommand` carry the end-to-end
   results: store and reply are those of the command run in one piece, and exactly when. `SlotIndex` holds the slot table, the sorted ranges and the search over them.
2. **The incremental reply reader** (`hiredis/read.c`). `ReplyStream` says what reading is,
   `ReplyStreamLaws` proves that chunk boundaries do not matter and that reading undoes encoding,
   `ReplyForms` says what becomes of the lines that no encoding produces,
   `ReplyObjects` and `ReplyBuilding` describe the objects while they are built, and the class in
   `Reader` is proved against them all.
3. **Cutting and recovering files** (`_read_csv`, `_file_recovery`): `Recovery`, with `Merge` for
   the priority queue loops and `Sorting` for the library sorts.
4. **The asynchronous callback queue** (`hiredis/async.c`): `Async`, and the linked list under it
   in `CallbackList`.
5. **Supporting structures**: the hash table (`Dict`, with `Powers` for its mask), quoting and
   splitting of argument lines (`SdsArgs`, with the spellings quoting does not produce in `SdsForms`), integer texts (`DecimalText`).

Code that updates state is modelled as classes and methods with loops; each method is proved
against a specification function or predicate, and the laws are lemmas about these.

Assumptions, and places where the code does not do what one might expect:

- `_hi_itoa` writes no terminator for zero, so a zero-length key may be announced with digits left
  over from an earlier number. `FragmentLaws.BufferFilledExactly` says exactly when the buffer
  ends where `clen` says, `ClusterCommand.EmptyKeyOverruns` is an MGET for which it does not, and
  non-empty keys are always safe. A sub-command with such a length is sent cut to `clen` bytes and is
  no command at all, so a split command keeps its meaning if and only if none of them has one
  (`ScatterGather.SplitMeansExactly`). A server is taken to answer bytes that are no formatted MGET,
  DEL or MSET with an error and to leave its store alone.
- `node_get_by_slot` agrees with the table from the first range on. Below it, it answers "no node"
  or reads outside the list depending on the list length; an empty list is always read.
  `SlotIndex.SearchLeavesList` is an accepted route for which it happens.
- An MSET that is cut short behind its second key or later ones makes the splitter look for a
  number beyond the end of the text. Of these texts, only those whose values can all be found are
  covered; every other text is.
- When memory is not given back automatically, a timeout gives it back only if some callback asks
  for a disconnect meanwhile (`Async.Context.HandleTimeout`). A free that a callback asks for then is
  not carried out by any later event either, unless user code outside callbacks asks for a disconnect
  or a free once more (`Async.FreeForgotten`).
- `line_flag` in `_file_recovery/re_file.cpp:177` has `max_line` entries that are not initialised;
  the model gives it `max_line + 1` entries, all false. `Recovery.CsvRecovery` proves that the line
  numbered `max_line` is always written, so the last entry is always needed.
- Cutting into blocks is proved for lines of up to 199 bytes without a zero byte whose first field
  has at most two bytes, whatever it holds, other than a comma alone. Recovery is stated for node files whose lines fit 40 bytes, end in a line feed, hold no space,
  percent sign or zero byte, and carry a task id below 100 without leading zeros; every node has
  at least one line with the id; blocks have 1 to 55000 lines. Each of the five nodes is recovered in turn,
  as the original waits for each result.
- A boolean reply may be the zero byte, and the two bytes behind a bulk string are not looked at:
  the reader does both and so does the model.
- The reader's limit on elements counts pairs for a map.
- Callbacks, the push handler among them, use the context only through command, disconnect and
  free, connect and disconnect callbacks do not use it at all, and a connection error always sets the error code.

## Model

| member | source | states |
|---|---|---|
| DecimalText.Int64OfExact | _tendis_server/hiredis/read.c:162-223 | a text denotes a 64-bit integer if and only if it is that integer's canonical decimal text |
| DecimalText.String2ll | _tendis_server/hiredis/read.c:162-223 | accepts exactly the canonical texts of 64-bit integers and gives the value: the unsigned overflow tests neither reject one that fits nor accept one that wraps |
| DecimalText.SdsLl2Str | _tendis_server/hiredis/sds.c:431-460 | printing backwards and reversing in place leaves the canonical text, for every 64-bit integer |
| DecimalText.CountDigits | _tendis_server/hiredis/hiredis.c:295-306 | the number of digits of any 64-bit unsigned number |
| DecimalText.UintLen | _tendis_server/hiredis-vip/hiutil.c:250-266 | the number of digits of any 32-bit number |
| DecimalText.HiItoa | _tendis_server/hiredis-vip/hiutil.c:189-237 | a positive number is printed with its terminator; for zero only the first byte is written and what was behind it stays |
| DecimalText.HiAtoi | _tendis_server/hiredis-vip/hiutil.c:165-187 | the value of a non-empty text of digits as a wrapping `int` holds it, -1 when that is negative and for anything else |
| DecimalText.OneDigitMore | _tendis_server/hiredis-vip/hiutil.c:165-187 | a digit more at the end makes ten times the number plus that digit, in printing and in reading, leading zeros or not |
| DecimalText.ToInt32Is | _tendis_server/hiredis-vip/hiutil.c:165-187 | what an `int` holds lies between its ends and differs from the number by a multiple of 2^32 |
| Crc16Bits.TableByBits | _tendis_server/hiredis-vip/crc16.c:46-79 | every one of the 256 table entries is eight steps of the shift register on its index |
| Crc16Register.RegisterDivides | _tendis_server/hiredis-vip/crc16.c:81-87 | the register form gives the remainder of long division by x^16 + x^12 + x^5 + 1 |
| Crc16.Crc16 | _tendis_server/hiredis-vip/crc16.c:81-87 | the table-driven loop gives, for every byte string, the remainder of its bits times x^16 by x^16 + x^12 + x^5 + 1 |
| KeySlot.KeyHashSlot | _tendis_server/hiredis-vip/hircluster.c:171-190 | the two brace searches compute the slot of the hashed part, below 16384 |
| KeySlot.SlotIsRemainder | _tendis_server/hiredis-vip/hircluster.c:171-190 | the slot of a key is the checksum of its hashed part modulo 16384 |
| KeySlot.TagDecidesSlot | _tendis_server/hiredis-vip/hircluster.c:171-190 | keys with the same first non-empty tag share a slot, whatever stands around the tag |
| KeySlot.NoTagHashesAll | _tendis_server/hiredis-vip/hircluster.c:171-190 | without such a tag the whole key is hashed |
| Resp.FormatCommandArgv | _tendis_server/hiredis/hiredis.c:632-672 | the buffer is filled to exactly the length computed for it and holds the command's protocol text |
| Resp.BulkLen | _tendis_server/hiredis/hiredis.c:308-310 | the length of a bulk string's text |
| CommandClasses.VectorCommands | _tendis_server/hiredis-vip/command.c:439-1032 | a name in any spelling is looked up as MGET, DEL or MSET if and only if its letters are those of that name up to case |
| CommandClasses.ClassOf | _tendis_server/hiredis-vip/command.c:17-285 | a name is looked up as a command of some class if and only if the class lists have that command in that class and the name is its letters in either case, for every command, class and name |
| CommandClasses.MatchesFolded | _tendis_server/hiredis-vip/command.c:439-1032 | matching a command's name is agreeing with it letter by letter once capitals are made small |
| CommandParser.Step | _tendis_server/hiredis-vip/command.c:361-1591 | one turn of the state machine keeps the run invariant: headers accepted and bulk strings still due add up to the announced count, spans lie inside the text, and the rest of the text still parses to the same answer |
| CommandParser.ParseCmd | _tendis_server/hiredis-vip/command.c:315-1602 | the machine computes the grammar's answer on every text; on `done` every key span lies inside the text with CR at its end |
| CommandLaws.DoneIsComplete | _tendis_server/hiredis-vip/command.c:1032-1591 | on `done`, all announced bulk strings were read for every type with keys, and the number of keys fits the type: two or more MSET keys mean an argument count of twice that plus one |
| CommandLaws.SpanHoldsArgument | _tendis_server/hiredis-vip/command.c:1056-1175 | the span of an argument in a formatted command holds exactly its bytes and ends at CR LF |
| CommandLaws.FormatThenParse | _tendis_server/hiredis-vip/command.c:315-1602 | for every argument list, whatever its bytes: the full answer of parsing its formatted text, keys and refusals included, arity by arity |
| CommandClasses.ParsedByClass | _tendis_server/hiredis-vip/command.c:315-1602 | a formatted command with a listed name in any spelling gives the answer of its class |
| CommandClasses.OthersRefused | _tendis_server/hiredis-vip/command.c:439-1032 | a formatted command whose name is in no class list is refused |
| GrammarForms.FixedParsed | _tendis_server/hiredis-vip/command.c:1127-1183 | a command with a fixed number of arguments behind its key is accepted if and only if it has exactly these, and its key is the first one |
| GrammarForms.AnyParsed | _tendis_server/hiredis-vip/command.c:1127-1183 | a command that takes any number of arguments is accepted with each, and its key is the first one |
| GrammarForms.KeysParsed | _tendis_server/hiredis-vip/command.c:1155-1167 | MGET and DEL have every word behind the name as a key, in order |
| GrammarForms.PairsParsed | _tendis_server/hiredis-vip/command.c:1160-1225 | MSET is accepted if and only if its words come in pairs or there is one alone, and every first word of a pair is a key |
| GrammarForms.EvalParsed | _tendis_server/hiredis-vip/command.c:1339-1425 | EVAL and EVALSHA with a written key count n, leading zeros included, are refused exactly if n is a multiple of 2^32, and otherwise have the fourth word as their key |
| GrammarForms.EvalRefused | _tendis_server/hiredis-vip/command.c:1339-1425 | too few words, or a key count that is empty or has a byte other than a digit, are refused |
| GrammarForms.LengthForms | _tendis_server/hiredis-vip/command.c:405-1337 | a length is read as its value modulo 2^32 whatever its leading zeros; it is refused when no bulk string is left, when it is zero for a name, and when it has no digit at all for an argument other than a key |
| GrammarForms.LengthRefused | _tendis_server/hiredis-vip/command.c:405-1337 | another byte in the place of the dollar sign, of the CR behind the digits or of the LF behind it is an error |
| GrammarForms.CountForms | _tendis_server/hiredis-vip/command.c:366-404 | a word count that is a multiple of 2^32, or not followed by CR LF, is an error |
| GrammarForms.CountCut | _tendis_server/hiredis-vip/command.c:366-404 | a text that ends inside the word count ends with no type, no keys and no error |
| GrammarForms.DataRefused | _tendis_server/hiredis-vip/command.c:1091-1140 | an argument whose data is not followed by CR LF at the announced place, or whose length reaches past the text, is an error |
| KeyValue.SplitMSet | _tendis_server/hiredis-vip/hircluster.c:3186-3248 | setting the fragments slot by slot gives the store of setting all pairs in order, duplicates included |
| KeyValue.SplitDel | _tendis_server/hiredis-vip/hircluster.c:3446-3460 | deleting the fragments slot by slot gives the same store and the same count as deleting all keys in order |
| KeyValue.ItemInFragment | _tendis_server/hiredis-vip/hircluster.c:3186-3248 | a key stands in its slot's fragment behind as many keys as that slot had before it |
| Fragments.GroupKeys | _tendis_server/hiredis-vip/hircluster.c:3186-3248 | for any text whose keys can be read: after the grouping pass every slot holds its own keys in their order, with exact counts and raw lengths, and the slot of every key is recorded; the length behind an MSET key is what the scan of the text gives in 32-bit arithmetic |
| Fragments.Serialise | _tendis_server/hiredis-vip/hircluster.c:3250-3386 | the second pass writes a sub-command's text, stale digits included, for any list of keys |
| Fragments.PreFragment | _tendis_server/hiredis-vip/hircluster.c:3148-3420 | for any text whose keys can be read: the sub-commands of all slots in slot order; none when all keys share one slot |
| FragmentLaws.BufferFilledExactly | _tendis_server/hiredis-vip/hircluster.c:3256-3386 | the write index ends at `clen` if and only if no zero length is printed over a longer number; the difference is given otherwise |
| FragmentLaws.NonEmptyKeysNotStale | _tendis_server/hiredis-vip/hiutil.c:189-237 | non-empty keys never leave stale digits |
| ClusterCommand.EmptyKeyOverruns | _tendis_server/hiredis-vip/hircluster.c:3256-3386 | the MGET of ten zero bytes and the empty key is accepted, both keys are in slot 0, and the bytes written for that slot's sub-command are one more than `clen` |
| ParsedKeys.SeveralKeysSplit | _tendis_server/hiredis-vip/command.c:1032-1591 | only MGET, DEL and MSET come out of parsing with several keys, cut short or not, each key having taken at least five bytes; behind every key of an accepted MSET the splitter's scan ends exactly where the value ends that the parser has read, its line end included |
| ParsedKeys.AcceptedPairsCopied | _tendis_server/hiredis-vip/hircluster.c:3192-3386 | for every accepted MSET with several keys, leading zeros in its lengths included, what is copied for a key is exactly that key, its line end, the value's length as spelt, and the value the parser has read with its line end |
| FragmentLaws.SerialisedIsFormat | _tendis_server/hiredis-vip/hircluster.c:3250-3386 | a sub-command's bytes are exactly the formatted command of that slot's keys |
| FragmentLaws.SubCommandParses | _tendis_server/hiredis-vip/hircluster.c:3250-3397 | parsing a sub-command gives the same type and that slot's keys in their original order |
| Gather.InspectReplies | _tendis_server/hiredis-vip/hircluster.c:3423-3478 | the first missing, error or ill-typed sub-reply decides, otherwise the integers of DEL are added up |
| Gather.Reassemble | _tendis_server/hiredis-vip/hircluster.c:3480-3520 | going backwards and taking the last element of the right sub-reply puts the first reply of a slot's key at that slot's first key and so on |
| Gather.PostFragment | _tendis_server/hiredis-vip/hircluster.c:3423-3544 | the reply put together for MGET, DEL and MSET, error cases included |
| Decoding.FormatInjective | _tendis_server/hiredis-vip/hiredis.c:530-566 | two argument lists with the same formatted text are equal, so a server can know what is meant |
| Decoding.StaleIsNoCommand | _tendis_server/hiredis-vip/hircluster.c:3054-3054 | the `clen` bytes sent of a sub-command with a stale length are the formatted text of no argument list |
| ScatterGather.EveryElementMovedOnce | _tendis_server/hiredis-vip/hircluster.c:3480-3520 | every sub-reply ends with no elements left, so each element is moved exactly once |
| ScatterGather.SplitMeansExactly | _tendis_server/hiredis-vip/hircluster.c:3148-3544 | for every parsed command, all keys, values and stores: running every sub-command from the bytes sent for it and putting the replies together gives the reply of the unsplit command if and only if no length announced is stale, and the server's refusal otherwise |
| ScatterGather.SplitPreservesMeaning | _tendis_server/hiredis-vip/hircluster.c:3148-3544 | without stale lengths the store after the sub-commands, too, is that of the unsplit command |
| ScatterGather.FormattedIsParsed | _tendis_server/hiredis-vip/hircluster.c:3552-3600 | a formatted MGET, DEL or MSET, however its name is spelt, is parsed to the spans of its keys, and these hold its items |
| ScatterGather.NonEmptyKeysExact | _tendis_server/hiredis-vip/hiutil.c:189-237 | no sub-command of a command with non-empty keys has a stale length |
| Redirect.OneWordFits | _tendis_server/hiredis-vip/hircluster.c:212-254 | a reply is classed MOVED, ASK, TRYAGAIN, CROSSSLOT or CLUSTERDOWN if and only if its text is longer than that word and starts with it: the order of the tests does not matter |
| Redirect.RedirectsMeans | _tendis_server/hiredis-vip/hircluster.c:212-254 | a command is tried again exactly after an error that is one of the five words followed by something |
| Redirect.TracedMeans | _tendis_server/hiredis-vip/hircluster.c:3008-3146 | every sending of a trace, one by one: behind ASK the node named was connected and told so; otherwise a node was found with a good connection, or with a broken one and another node's good one in its place; behind MOVED the route had been updated |
| Redirect.Cluster.Execute | _tendis_server/hiredis-vip/hircluster.c:2998-3146 | terminates whatever the nodes answer; at most one sending plus one for every redirect still allowed; sent again only after a redirect; behind ASK the next sending needs the node named to be connected and told so, and no look-up, behind MOVED an updated route and a look-up, behind the other redirects a look-up; there is no reply only if the redirects are used up, a sending was not answered, or the next one could not go out; a reply is never a redirect; when nothing fails there is no reply only once all redirects are used up; a node that always says "try again" is asked exactly that often |
| Redirect.Cluster.ExecuteAll | _tendis_server/hiredis-vip/hircluster.c:3672-3688 | the sub-commands in order share one redirect budget, and an error reply ends the loop |
| Redirect.Cluster.FormattedCommand | _tendis_server/hiredis-vip/hircluster.c:3613-3731 | with k sub-commands at most k plus the redirect limit sendings; the reply is the first error or what the replies make together; the retry count is zero again |
| Redirect.EachOnce | _tendis_server/hiredis-vip/hircluster.c:3672-3688 | whatever was redirected, every sub-command takes effect exactly once, in order, with the reply kept for it |
| Redirect.RedirectsDoNotMatter | _tendis_server/hiredis-vip/hircluster.c:2998-3731 | if nodes execute what they do not redirect, the reply is that of the command in one piece, with its store, when no length is stale, and a refusal otherwise |
| ClusterCommand.CommandFormatBySlot | _tendis_server/hiredis-vip/hircluster.c:3552-3600 | for any text: no slot when it fails or has no key, the slot of a single key, otherwise the split, also for text cut short |
| ClusterCommand.ClusterFormattedCommand | _tendis_server/hiredis-vip/hircluster.c:3613-3731 | for any command: its bytes, or those of its sub-commands, go out at most once each and once for every redirect allowed; for a formatted MGET, DEL or MSET in any spelling: store and reply of the command in one piece if and only if it is not split or no length is stale, and a reply whenever nothing fails and redirects are left |
| SlotIndex.DisjointOwners | _tendis_server/hiredis-vip/hircluster.c:1409-1421 | ranges are pairwise disjoint if and only if no slot has two owners |
| SlotIndex.AcceptableMeans | _tendis_server/hiredis-vip/hircluster.c:1355-1421 | an accepted route has masters only, and its ranges run upwards, stay below 16384 and lie pairwise one wholly below the other |
| SlotIndex.TableAnswers | _tendis_server/hiredis-vip/hircluster.c:1409-1421 | an indexed table names for every slot the node of the range that has it, and nobody else |
| SlotIndex.SortByStart | _tendis_server/hiredis-vip/hircluster.c:652-659 | sorting by start keeps the ranges and every slot's owners |
| SlotIndex.FillTable | _tendis_server/hiredis-vip/hircluster.c:1409-1421 | succeeds exactly when the ranges are pairwise disjoint, and then every entry names the one holder of its slot or nobody |
| SlotIndex.Route.Update | _tendis_server/hiredis-vip/hircluster.c:1355-1487 | succeeds exactly when all nodes are masters and the ranges are well formed and pairwise disjoint; then table, list, nodes and version are new, otherwise nothing changes |
| SlotIndex.LeadingTen | _tendis_server/hiredis-vip/hircluster.c:2540-2572 | the list lengths for which the search below the first range ends: from twice to three times a power of two, less one |
| SlotIndex.Search | _tendis_server/hiredis-vip/hircluster.c:2515-2581 | with 32-bit wrap-around: finds the holder or reports none from the first range on; below it answers "no node" or leaves the list, by length |
| SlotIndex.Route.NodeBySlot | _tendis_server/hiredis-vip/hircluster.c:2515-2581 | equals the table entry for every slot not below the first range, and otherwise is "no node" exactly for the lengths given |
| SlotIndex.SearchLeavesList | _tendis_server/hiredis-vip/hircluster.c:2515-2581 | an accepted route of two ranges above slot 0 for which looking up slot 0 reads outside the list, while the table answers "no node" |
| SlotIndex.Route.NodeByTable | _tendis_server/hiredis-vip/hircluster.c:2584-2600 | the table entry, nobody beyond the last slot |
| ReplyStream.CompleteShrinks | _tendis_server/hiredis/read.c:734-785 | every reply takes at least one byte, so draining ends |
| ReplyStreamLaws.AdvanceExtends | _tendis_server/hiredis/read.c:570-644 | reading on after more bytes came is the same as having had them all along, wherever the cut falls |
| ReplyStreamLaws.ChunkIndependence | _tendis_server/hiredis/read.c:570-785 | for every stream, every way of cutting it and every state of the reader: same replies, same error, same final state as fed at once |
| ReplyStreamLaws.DrainTwice | _tendis_server/hiredis/read.c:734-785 | a drained reader gives nothing more and does not change |
| ReplyStreamLaws.AdvanceEncode | _tendis_server/hiredis/read.c:268-568 | the text of any reply tree is read as that tree, inside any open aggregates and before any further bytes |
| ReplyStreamLaws.ChunkedRoundTrip | _tendis_server/hiredis/read.c:570-785 | the encoding of any list of replies, cut anywhere, is read back as exactly these and leaves the reader as new |
| ReplyStreamLaws.CommandReadsBack | _tendis_server/hiredis/hiredis.c:632-672 | a formatted command is read back as one array of exactly its arguments |
| ReplyForms.AggregateForms | _tendis_server/hiredis/read.c:505-533 | for every kind of aggregate and every 64-bit count: -1 is a nil, a smaller one or one above the element limit is refused, 0 is an empty aggregate, and n opens n elements, twice as many for a map |
| ReplyForms.AggregateRefused | _tendis_server/hiredis/read.c:505-512 | an aggregate whose count is not the canonical text of a 64-bit integer is refused |
| ReplyForms.BulkForms | _tendis_server/hiredis/read.c:394-446 | a bulk or verbatim length of -1 is a nil, and any other negative one is refused |
| ReplyForms.VerbatimRefused | _tendis_server/hiredis/read.c:431-438 | a verbatim string without a type of three bytes and a colon is refused |
| ReplyForms.NullForms | _tendis_server/hiredis/read.c:324-334 | the null type gives a nil for an empty line and is refused for any other |
| ReplyForms.TruthForms | _tendis_server/hiredis/read.c:335-348 | true is `t` or `T`, false is `f`, `F` or the zero byte, and any other line is refused |
| ReplyForms.IntegerRefused | _tendis_server/hiredis/read.c:268-285 | an integer line that is not the canonical text of a 64-bit integer is refused |
| ReplyForms.BigNumberRefused | _tendis_server/hiredis/read.c:349-364 | a byte that is no digit refuses a big number, but for a minus in front |
| ReplyForms.SimpleRefused | _tendis_server/hiredis/read.c:365-375 | a status or an error with a CR or LF of its own is refused |
| ReplyForms.FirstByte | _tendis_server/hiredis/read.c:570-625 | any first byte but the thirteen type bytes is refused, and behind one of these reading waits for the end of the line |
| ReplyForms.EncodedLetter | _tendis_server/hiredis/read.c:570-625 | the text of each kind of reply, which is read back as that reply, starts with the protocol's byte for it |
| ReplyBuilding.FinishedDelivers | _tendis_server/hiredis/hiredis.c:124-199 | closing aggregates changes no object: what was hooked in is already the finished tree |
| ReplyObjects.NoSlotUnset | _tendis_server/hiredis/hiredis.c:173-199 | no element slot of a finished reply is unset, and each points at a later object of the same reply |
| ReplyObjects.RootIsReply | _tendis_server/hiredis/hiredis.c:124-199 | following the addresses from the root gives the reply back |
| Reader.ParentIsBelow | _tendis_server/hiredis/read.c:240-266 | the stack stays inside its array and every task but the first points back to the one before it, an aggregate with room for its element |
| Reader.FindNewline | _tendis_server/hiredis/read.c:125-147 | the first CR LF, or none |
| Reader.LineValue | _tendis_server/hiredis/read.c:268-372 | the checks on integer, double, nil, bool, big number and simple lines |
| Reader.BulkValue | _tendis_server/hiredis/read.c:394-446 | a bulk item is malformed, incomplete, nil, a string or a verbatim string as its header and length say |
| Reader.AggregateValue | _tendis_server/hiredis/read.c:505-530 | an aggregate header is malformed, nil, empty or opens that many elements, twice as many for a map |
| Reader.Reader.Create | _tendis_server/hiredis/hiredis.c:124-199 | a new object is stored in the element slot its task points at and nowhere else |
| Reader.Reader.MoveToNextTask | _tendis_server/hiredis/read.c:240-266 | the stack moves as delivering the reply to the innermost open aggregate says |
| Reader.Reader.Grow | _tendis_server/hiredis/read.c:466-490 | nine more tasks, the old ones kept |
| Reader.Reader.ProcessLineItem | _tendis_server/hiredis/read.c:268-392 | one step of reading on an item of one line |
| Reader.Reader.ProcessBulkItem | _tendis_server/hiredis/read.c:394-464 | one step of reading on a bulk string |
| Reader.Reader.ProcessAggregateItem | _tendis_server/hiredis/read.c:492-568 | one step of reading on an aggregate, with the stack grown in time |
| Reader.Reader.ProcessItem | _tendis_server/hiredis/read.c:570-644 | one step of reading, the type byte possibly taken earlier; bytes are used up on success |
| Reader.Reader.Feed | _tendis_server/hiredis/read.c:703-732 | the bytes are behind those waiting; nothing after an error |
| Reader.Reader.GetReply | _tendis_server/hiredis/read.c:734-785 | the next reply's objects, the same state and the same error as the specification, dropping of used bytes included |
| Reader.ReadChunks | _tendis_server/hiredis/read.c:570-785 | a new reader fed with chunks and drained after each hands out the objects of the replies in all the bytes at once and ends in the same state |
| CallbackList.CallbackList.Push | _tendis_server/hiredis/async.c:250-270 | the linked list gets one callback at its end |
| CallbackList.CallbackList.Shift | _tendis_server/hiredis/async.c:272-286 | the first callback is taken off and the nodes behind it stay, none from an empty list |
| CallbackList.AnyRun | _tendis_server/hiredis/async.c:250-286 | any sequence of appends and removals on a new list gives what it would give on a queue |
| Async.Context.Issue | _tendis_server/hiredis/async.c:745-834 | accepted and queued exactly when the context is not being closed |
| Async.Context.RunCallback | _tendis_server/hiredis/async.c:288-295 | one callback is handed one reply and does what it does: its commands up to a disconnect or free are accepted, order is kept and nothing is freed under it |
| Async.Context.RunPushCallback | _tendis_server/hiredis/async.c:297-303 | the handler, whatever it does, leaves the queue in order and the context in use; a free it asks for is put off |
| Async.SpontaneousIsPush | _tendis_server/hiredis/async.c:479-480 | only push messages bypass the callbacks |
| Async.PlainPush | _tendis_server/hiredis/async.c:482-492 | a push message that starts with nothing, with no string or with one of less than seven bytes bypasses them |
| Async.OtherPush | _tendis_server/hiredis/async.c:482-501 | so does one that starts with a word whose first letter, past a "p", is neither that of "subscribe" nor that of "message", such as "invalidate" |
| Async.SubscribePush | _tendis_server/hiredis/async.c:482-501 | one that starts with "message", "pmessage", "subscribe" or "psubscribe" in either case does not |
| Async.AgreesMeans | _tendis_server/hiredis/async.c:482-501 | the comparison holds exactly if both words agree up to case as far as both go, and the reply's word goes on at most with a zero byte |
| Async.NoPushInBand | _tendis_server/hiredis/async.c:529-537 | replies without a push message among them all go to the callbacks |
| Async.Context.FreeNow | _tendis_server/hiredis/async.c:306-356 | all that waits gets the null reply in order, the disconnect callback its status, and the memory goes once |
| Async.Context.AsyncFree | _tendis_server/hiredis/async.c:362-367 | put off in a callback, otherwise freed at once |
| Async.Context.DisconnectNow | _tendis_server/hiredis/async.c:370-395 | a clean disconnect finds nothing waiting; an unclean one refuses commands first |
| Async.Context.AsyncDisconnect | _tendis_server/hiredis/async.c:403-411 | refuses further commands and closes at once exactly when nothing waits and no callback runs |
| Async.Context.ProcessCallbacks | _tendis_server/hiredis/async.c:479-591 | spontaneous push messages go to their handler and no further, and without any of these every reply is in band; the replies in band go to callbacks in order, none skipped, also when callbacks issue commands, disconnect or free; a put-off free or disconnect is then carried out |
| Async.Context.HandleTimeout | _tendis_server/hiredis/async.c:689-724 | an idle or unlimited connection is left alone, otherwise everything waiting, and what callbacks add, gets the null reply; given the queue and what the callbacks will do, the memory goes if and only if it was given back automatically on entry or one of the callbacks that run disconnects |
| Async.FreeForgotten | _tendis_server/hiredis/async.c:689-724 | a context whose callback frees it during a timeout and that is still not freed after any later events, as long as user code outside callbacks does not ask for its end again |
| Async.AnyRun | _tendis_server/hiredis/async.c:503-834 | the same for every new context and every script of what its callbacks do |
| Async.Context.Run | _tendis_server/hiredis/async.c:503-834 | over every run: each accepted callback is delivered once in order, the k-th with the server's k-th reply, push messages not counted, or the null reply, only null replies after the first null reply, all delivered when the context is freed, and it is freed at most once |
| Dict.AnyRun | _tendis_server/hiredis-vip/dict.c:88-256 | any sequence of add, replace, delete and find on a new table answers as on a finite map, for every hash function |
| Powers.AndMask | _tendis_server/hiredis-vip/dict.c:116-118 | a bitwise "and" with a power of two less one is the remainder |
| Dict.EntriesCounted | _tendis_server/hiredis-vip/dict.c:88-130 | the table has exactly as many entries as the map it stands for |
| Dict.NextPower | _tendis_server/hiredis-vip/dict.c:305-316 | the least power of two from four on that is large enough |
| Dict.Rehash | _tendis_server/hiredis-vip/dict.c:101-125 | every entry moves to its new chain, the map stays and the count comes out at zero |
| Dict.Dict.Expand | _tendis_server/hiredis-vip/dict.c:88-130 | keeps the map; fails only for a size below the number of entries and then changes nothing |
| Dict.Dict.KeyIndex | _tendis_server/hiredis-vip/dict.c:320-338 | makes room, and gives the key's chain exactly if the key is new |
| Dict.Dict.Add | _tendis_server/hiredis-vip/dict.c:135-154 | adds exactly if the key is new, as a finite map would |
| Dict.Dict.Replace | _tendis_server/hiredis-vip/dict.c:160-179 | the map gets the value in any case; tells whether the key is new |
| Dict.Dict.Delete | _tendis_server/hiredis-vip/dict.c:182-210 | the map loses the key; tells whether it was there |
| Dict.Dict.Find | _tendis_server/hiredis-vip/dict.c:243-256 | finds the entry exactly if the map has the key, with the map's value |
| Dict.Iterator.Next | _tendis_server/hiredis-vip/dict.c:268-286 | hands out something still to come, or nothing when all has come |
| Dict.Iterator.DeleteSeen | _tendis_server/hiredis-vip/dict.c:182-210 | deleting what has been handed out disturbs nothing still to come |
| Dict.VisitAll | _tendis_server/hiredis-vip/dict.c:258-286 | a walk that deletes some of what it is given meets every entry exactly once |
| SdsArgs.CatRepr | _tendis_server/hiredis/sds.c:872-895 | appends the quoted form of any byte string |
| SdsArgs.SplitArgs | _tendis_server/hiredis/sds.c:940-1056 | the flag-driven loops compute the arguments of any line, or none for unbalanced quotes |
| SdsArgs.SplitUndoesQuoting | _tendis_server/hiredis/sds.c:872-1056 | quoting any list of byte strings with spaces between and splitting the line gives exactly that list |
| SdsForms.MixedSplits | _tendis_server/hiredis/sds.c:940-1056 | a line of arguments each written bare, in double or in single quotes, in any mixture, splits into exactly these |
| SdsForms.HexForm | _tendis_server/hiredis/sds.c:958-967 | `\x` and two hexadecimal digits, small or capital, stand for one byte |
| SdsForms.EscapeForm | _tendis_server/hiredis/sds.c:968-980 | a backslash and another byte stand for the control character of that letter, or for the byte itself |
| SdsForms.EscapeWritten | _tendis_server/hiredis/sds.c:872-895 | which bytes quoting writes as themselves, behind a backslash, as a letter or in small hexadecimal digits |
| SdsForms.Unclosed | _tendis_server/hiredis/sds.c:986-1006 | a quote that is never closed refuses the line |
| SdsForms.GluedRefused | _tendis_server/hiredis/sds.c:981-985 | a closing quote followed by anything but a blank refuses the line |
| SdsArgs.SdsRange | _tendis_server/hiredis/sds.c:726-754 | the bytes between two positions, negative ones counted from the end |
| SdsForms.RangeForms | _tendis_server/hiredis/sds.c:726-754 | positions from the front, from the back, past the end, and empty ranges |
| SdsArgs.RangeDropsFront | _tendis_server/hiredis/read.c:770-775 | cutting from a position to the end leaves the unread bytes, none when all are read |
| Merge.Top | _file_recovery/re_file.cpp:152-153 | an entry with the least number; which one among equals is left open |
| Merge.TopFirst | _file_recovery/re_file.cpp:127-163 | the line at the top of the queue comes before all that is left in any file |
| Merge.Next | _file_recovery/re_file.cpp:155-162 | after reading on, the queue stands for the files without that line |
| Recovery.CutAndRestore | _read_csv/read_csv.cpp:115-121 | cutting a line's task id off and writing the id in front gives the line back, with the same line number |
| Recovery.NumberedNumber | _file_recovery/re_file.cpp:85-86 | a line's number is the value of the digits between its first two commas, whatever stands around them |
| Recovery.AtoiForms | _read_csv/read_csv.cpp:115-121 | what `atoi` makes of digits with anything behind them, of signs, blanks and other texts |
| Recovery.InsertToRedis | _read_csv/read_csv.cpp:95-127 | the blocks hold exactly the lines with the id, in order, full ones first and none empty |
| Recovery.SplitUndoesConcat | _file_recovery/re_file.cpp:70-81 | lines run together into a block come apart again |
| Recovery.SortBlocks | _file_recovery/re_file.cpp:51-118 | every block becomes a sorted file of its lines; the greatest line number of all |
| Recovery.SortNodes | _file_recovery/re_file.cpp:120-172 | the merged file is sorted and its lines are those of all blocks, with the same multiplicities |
| Recovery.SortFile | _file_recovery/re_file.cpp:174-237 | strictly increasing line numbers, only lines some node has, one for every number there is |
| Recovery.CsvRecovery | _file_recovery/re_file.cpp:23-49 | the same from the stored blocks of all nodes; the greatest line number is itself written |
| Recovery.RecoveredFrom | _file_recovery/re_file.cpp:215-219 | what that means for the original files: every written line is an original one, and every number that stands between the first two commas of some line of the task is written once |
| Recovery.Pipeline | _file_recovery/re_file.cpp:23-237 | end to end from the node files to the recovered file |

## Left out

- Fragments.GroupKeys: the table of 16384 pointers and the array of fragment pointers are a map and a sequence of slots; that each sub-command is one shared object is not modelled.
- Fragments.PreFragment: the slot function is a parameter; `ClusterCommand` passes the one `KeySlot` proves of `keyHashSlot`.
- Fragments.Serialise: bytes written behind the allocated length are part of the model's text; what they would overwrite is not.
- ClusterCommand.CommandFormatBySlot: an MSET that is cut short with several keys, one of them without a number behind it, makes the original read past the text and is not covered.
- ClusterCommand.ClusterFormattedCommand: what the reply means is stated for text as the formatter writes it, in any spelling of the name; the traffic is described for every text.
- CommandParser.ParseCmd: texts are shorter than 2^31 bytes, as the length field requires; error texts are not modelled.
- SlotIndex.Route.Update: nodes are numbers, and the connections carried over from the old nodes are not modelled; the version does not wrap.
- DecimalText.HiAtoi: signed overflow, which the language leaves open, is taken to wrap.
- Reader.LineValue: which texts are doubles is a parameter (the C library's `strtod`), and a double is kept as its text.
- Reader.AggregateValue: the doubled count of a map is not bounded by 64 bits; without an element limit the original overflows for counts of 2^62 and more.
- Reader.Reader.Create: objects are values in a list of allocations, addresses are their numbers; giving memory back, also on errors, is not modelled.
- Reader.Reader.Feed: giving back an oversized empty buffer is not modelled; it holds nothing.
- Redirect.Cluster.Execute: which node is asked and how a route is refreshed is up to the arbitrary world; ASKING is not counted.
- Async.Context.Issue: the queue is a sequence; `CallbackList` proves that the linked list is one. Subscribing, unsubscribing and monitoring are left out.
- Async.Context.FreeNow: the callback lists of subscriptions, which get null replies as well, are left out.
- Async.Context.ProcessCallbacks: a reply that nobody waits for and that is no error stops the run, as the original's assertion does.
- Dict.Dict.Add: chains are sequences of entries, so the sharing of an entry between table and caller is not modelled; any hash function with 32-bit results; fewer than 2^31 entries, as the signed index requires.
- Dict.Dict.Expand: requested sizes of `LONG_MAX` and more, for which the original asks for memory that cannot be had, are left out.
- Recovery.InsertToRedis: block names and the command text around a block are left out; a block is stored under the next number, and an empty one is refused.
- Recovery.SortBlocks: a store that cannot be read, which ends recovery early, is left out.
- Recovery.SortFile: the flags start out false and reach up to the greatest line number; the original's are not initialised and end one before it.
- Out-of-memory paths, error message texts, sockets, TLS, event loop adapters, reconnects and timers.
- The pipelined and the asynchronous cluster interfaces, parsing of the cluster's own description of its nodes, slaves and open slots.
- Election and dispatch of recovery jobs between machines, and the thread pool.
- Formatting with `%` conversions (`redisvFormatCommand`).
