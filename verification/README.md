# MemCachedClient: a verified model

This project models the parts of the MemCachedClient library (an asynchronous client for the
memcached binary protocol) whose behaviour is hard to see from the code, and proves what they
do over all inputs and all runs. Run `dafny verify dfyconfig.toml` to verify everything.

| file | component |
|---|---|
| `Md5Compression.dfy`, `Md5Sines.dfy`, `Md5Stream.dfy`, `Md5.dfy` | streaming MD5 |
| `LoggerNames.dfy`, `LoggerIds.dfy`, `LogConfig.dfy`, `LogRouting.dfy`, `LogManager.dfy` | hierarchical loggers, their configuration and sink routing |
| `Servers.dfy`, `ModuloDistri.dfy`, `MemoDistri.dfy`, `HashRing.dfy`, `ConsistentHashDistri.dfy`, `ServerList.dfy` | choosing a server for a key |
| `TcpWriter.dfy` | the double-buffered writer of a connection |
| `Framing.dfy`, `Requests.dfy`, `Delivery.dfy`, `Completion.dfy` | response framing, delivery of values and request completion |
| `Wildcard.dfy` | wildcard patterns as regular expressions |
| `DecimalText.dfy`, `Words.dfy`, `Collections.dfy` | decimal notation, machine words and their bits, small facts about collections |

Code that updates state is a class or a loop whose postcondition names a function of the old
state; the theorems are about those functions. Words are integers with explicit wrap-around.
References to servers, loggers and sinks are handles or keys. Events that the io thread runs
(posted handlers, completed reads and writes) are steps of a state machine, so "every run"
means every sequence of enabled steps.

## What is found

- **MD5.** Any way of cutting a message into chunks gives the fold of the compression function
  over the padded message. The block loop of `update` uses a 32-bit counter; it comes to an end
  exactly for chunks shorter than 2^32 that, together with the buffered bytes, do not reach 2^32
  (or when nothing is buffered). `update` clears the finished flag that `digest` sets, and
  `final` restores the state and the count but not the buffer: with 56 or more buffered bytes
  the object afterwards stands for a different message, given by `AfterDigest`.
- **Logger ids.** Over every table that `GetId` can build, the interval test `Id <= x < NextId`
  decides the dotted-ancestor relation on all pairs of names if and only if there are at most
  254 names on the top level and at most 255 on each other level. `Root` has id 0, so its
  interval covers no other logger.
- **Sink routing.** The order and repetition of `GetLogger` calls do not matter. Every call made
  before the configuration activates `Root`, which then keeps the (missing) sinks it had: delivery
  follows the loggers as they are configured if and only if `Root` was not activated that early or
  has no sink that would take one of its records. The constructors of `TcpClient` and `ServerList`
  make such calls (`network/TcpClient.cpp:12`, `serverManager/ServerList.cpp:9`).
- **Configuration.** Files load if and only if no logger is declared twice and no sink's plain name
  is taken where its turn comes.
- **Name resolution** ends for every name except one that starts with a dot and has no
  configured prefix.
- **Memo distribution.** The heap keeps the most loaded server in front, so in every reachable
  state one server has all keys and every lookup answers it, until it is removed.
- **Consistent hashing.** Points are spelt by four hexadecimal digits, so there are at most 65536
  of them, and every hash above 0x66666666 belongs to the owner of the least point. The ring is a
  function of the live servers after every operation if and only if each server is added with
  points disjoint from those of the other servers live at that time; removing an address and
  adding it again keeps to this. Servers of one host may share points: port 1121 with running number
  10 and port 11211 with running number 0 hash one text.
- **Server names** run host and port together: `10.0.0.1` with port 11211 and `10.0.0.11` with
  port 1211 have one name, and the second is refused.
- **Writer.** At most one write is outstanding, and for exactly the write buffers, if and only
  if no empty vectored request reaches an idle writer.
- **Framing.** The connections of all servers share one table of requests. The reader of a
  connection stays aligned with its responses if and only if at every header the client goes on to
  read exactly the body of that response, whatever the other connections bring.
- **Completion.** On any number of connections and any input, every posted handler finds its request
  if and only if no response, on whatever connection, finishes a request whose handler is still
  waiting to run. A duplicate that comes later is ignored. With one response for each id the
  completions merge the connections, each in its own order.
- **Wildcards.** Braces are not escaped. The translation means the wildcard if and only if no brace
  can be taken for a count, whether or not the reader takes a misplaced brace as itself; `a{2}` finds
  `aa`.

Where code and comments disagree the model follows the code: the header of `final` in
`utils/md5.cpp` says that it zeroizes the context, which it does not. `ntohll` exchanges bytes only
under the macro `ENDIAN_LITTLE`, which nothing in the repository defines, so the cas of a response
stays as it was sent.

## Model

| member | source | states |
|---|---|---|
| Md5Compression.AuxiliaryBits | utils/md5.cpp:26-29 | the truth tables of F, G, H and I in every bit position |
| Md5Compression.RotateSum | utils/md5.cpp:33-33 | for every word and amount the rotation is the wrapped product plus the quotient that comes round |
| Md5Compression.RotateBit | utils/md5.cpp:33-33 | bit i moves to place i + n modulo 32 |
| Md5Compression.MixIs | utils/md5.cpp:38-57 | wrapped addition, rotation, wrapped addition, as in section 3.4 of RFC 1321 |
| Md5Compression.StepTable | utils/md5.cpp:224-294 | which auxiliary function, message word and rotation each step uses |
| Md5Sines.SineAddition | utils/md5.cpp:224-294 | the constants satisfy the addition theorem of the sine up to rounding |
| Md5Sines.FirstSines | utils/md5.cpp:225-226 | the first two constants are 2^32 sin 1 and 2^32 sin 2 |
| Md5Compression.Round1 | utils/md5.cpp:224-240 | steps 1 to 16 with renamed registers are table-driven steps 0 to 15, for any mixing operation |
| Md5Compression.Round2 | utils/md5.cpp:242-258 | the same for steps 16 to 31, with message index 5i+1 mod 16 |
| Md5Compression.Round3 | utils/md5.cpp:260-276 | the same for steps 32 to 47, with message index 3i+5 mod 16 |
| Md5Compression.Round4 | utils/md5.cpp:278-294 | the same for steps 48 to 63, with message index 7i mod 16 |
| Md5Compression.Rounds | utils/md5.cpp:224-294 | the 64 unrolled steps are the table-driven run of section 3.4 of RFC 1321 |
| Md5Stream.DecodeEncode | utils/md5.cpp:305-324 | decoding encoded words gives the words back |
| Md5Stream.EncodeDecode | utils/md5.cpp:305-324 | encoding decoded bytes gives the bytes back |
| Md5Stream.LittleEndian | utils/md5.cpp:305-324 | the low-order byte comes first in both directions |
| Md5Stream.PadLength | utils/md5.cpp:201-207 | the padded message is a whole number of blocks in both padding cases (sections 3.1 and 3.2 of RFC 1321) |
| Md5Stream.FewestZeros | utils/md5.cpp:201-204 | the padding uses the fewest zeros that leave exactly the length field free |
| Md5Stream.PadBytes | utils/md5.cpp:187-207 | byte for byte: 0x80, zeros, and the bit length modulo 2^64 with the low-order byte first |
| Md5Stream.CompressAdds | utils/md5.cpp:296-299 | the registers of the 64 steps are added to the state word by word |
| Md5Stream.FoldAppend | utils/md5.cpp:165-181 | folding over an aligned message and then over the rest is folding over both |
| Md5Stream.AbsorbedBlocks | utils/md5.cpp:103-113 | the initial registers, and one compression for each block |
| Md5Stream.DigestIs | utils/md5.cpp:210-210 | the digest is the four registers |
| Md5Stream.HexDigitIs | utils/md5.cpp:62-67 | the digits are 0 to 9 and a to f |
| Md5Stream.HexStringIs | utils/md5.cpp:327-339 | two digits for each byte, high half first |
| Md5.LoopEnds | utils/md5.cpp:171-173 | the 32-bit block loop ends exactly for the accepted lengths |
| Md5.CountAdds | utils/md5.cpp:157-161 | adding with a carry found by comparison keeps the bit count modulo 2^64 |
| Md5.IndexOfCount | utils/md5.cpp:154-155 | the buffered byte count is recovered from the low count word |
| Md5.PadInTwoUpdates | utils/md5.cpp:198-207 | the two updates of final append exactly the padding of the message |
| Md5.LastBlockBytes | utils/md5.cpp:198-207 | what the buffer holds when final is done |
| Md5.DigestKeepsStream | utils/md5.cpp:93-100 | digest leaves the stream as it was exactly with fewer than 56 buffered bytes or when they equal what overwrites them; a further digest changes nothing more |
| Md5.DigestClobbers | utils/md5.cpp:187-215 | 56 bytes of 'a' become 56 zeros |
| Md5.Md5.Reset | utils/md5.cpp:103-113 | the object stands for the empty message |
| Md5.Md5.Encode | utils/md5.cpp:305-313 | little-endian bytes of the words, the rest of the output unchanged |
| Md5.Md5.Decode | utils/md5.cpp:318-324 | little-endian words of the bytes |
| Md5.Md5.Transform | utils/md5.cpp:218-300 | the state becomes the compression of the old state with the block |
| Md5.Md5.AddCount | utils/md5.cpp:157-161 | the count words hold the bit length of the longer message |
| Md5.Md5.TransformAll | utils/md5.cpp:171-173 | every full block of the input is compressed |
| Md5.Md5.Update | utils/md5.cpp:148-182 | from standing for m to standing for m + input: state, count and buffered tail |
| Md5.Md5.Final | utils/md5.cpp:187-215 | the digest of the message; state and count restored, buffer left with the last padded block |
| Md5.Md5.Digest | utils/md5.cpp:93-100 | the first digest is the MD5 digest; afterwards the object stands for AfterDigest(m) and the flag is clear |
| Md5.Md5.BytesToHexString | utils/md5.cpp:327-339 | two digits per byte, high half first |
| Md5.Md5.ToString | utils/md5.cpp:342-344 | the hexadecimal digest of the message |
| Md5.HashChunks | utils/md5.cpp:148-215 | for every cutting into accepted chunks the result is the digest of the concatenation |
| LoggerIds.AddNameOk | log/LogManager.cpp:239-253 | giving the next id of a level to a new name keeps the table invariant, with 32- and 64-bit wrap-around |
| LoggerIds.IntervalIsAncestry | log/LoggerInfo.h:27-33 | within the budget the interval test is dotted ancestry and ids are unique |
| LoggerIds.BudgetIsExact | log/LoggerInfo.h:7-33 | the interval test decides ancestry on all pairs exactly within the budget |
| LogManager.Manager.InitTables | log/LogManager.cpp:24-31 | the multiplier of level l is 256 to the power 7 - l |
| LogManager.Manager.GetId | log/LogManager.cpp:239-253 | an old name keeps its id, a new name gets the next one of its level below its parent |
| LogManager.Manager.NewInfo | log/LogManager.cpp:182-213 | the entry that the section describes for a newly declared logger, its filter included, or refusal of a second declaration |
| LogManager.Manager.DeclareLogger | log/LogManager.cpp:180-217 | a logger is entered, as its section describes it, exactly when its name is new; nothing else changes |
| LogManager.Manager.LoadLogger | log/LogManager.cpp:177-237 | succeeds exactly when no declared logger is declared twice or exists already; then exactly the declared loggers are added, each with the filter, sink names and file number of its section, and exactly the identified names have ids; older loggers are kept |
| LogManager.Manager.LoadChildren | log/LogManager.cpp:220-235 | the same for the children of a section |
| LogConfig.FreshNext | log/LogManager.cpp:193-196 | one more section loads exactly when its own declarations are fresh after those before it |
| LogConfig.FilesLoadNext | log/LogManager.cpp:89-93 | one more file loads exactly when its sinks are accepted and its declarations are fresh where its turn comes |
| LogManager.Manager.AddSink | log/LogManager.cpp:139-155 | a sink is entered under its name and file number and lets nothing through yet; refusal looks for the name without the number |
| LogManager.Manager.LoadSinks | log/LogManager.cpp:135-175 | all sinks of a file are entered exactly when no name is refused |
| LogManager.Manager.LoadConfig | log/LogManager.cpp:100-128 | one file: loads exactly when its sinks are accepted and its declarations are fresh; the next file number, exactly its sinks, exactly its loggers as declared |
| LogManager.Manager.LoadConfigs | log/LogManager.cpp:89-93 | all files in turn, with the exact condition under which all of them load: sinks, entries and ids as the files declare them |
| LogManager.Manager.Initialize | log/LogManager.cpp:89-95 | succeeds exactly when all files load; then every declared logger, Root included, has the filter, level, id and sink names of its section and is linked to exactly the known sinks it names, and every new sink has the filter of its section; Root becomes early exactly when it was active and is configured now |
| LogManager.Manager.LinkLoggersWithSinks | log/LogManager.cpp:255-270 | the collected loggers get the known sinks of their file in order, no other logger changes |
| LogConfig.LinkedExactly | log/LogManager.cpp:255-270 | a logger is linked to a sink exactly when it names the sink and the sink is known |
| LogConfig.LinkedInOrder | log/LogManager.cpp:255-270 | the names are looked up one by one, in order and with repetitions |
| LogConfig.SinkFilterKept | log/LogManager.cpp:148-154 | the filter of the first sink section with a free key is the filter of the sink in the end |
| LogConfig.EntryIs | log/LogManager.cpp:202-214 | filter, file number, sink names and links of a declared logger in terms of its section |
| LogManager.Descends | log/LogManager.cpp:299-312 | the search visits every boundary of the name that it does not pass over |
| LogManager.SearchEndsExactly | log/LogManager.cpp:299-312 | the search ends exactly for names that do not start with a dot or have a configured prefix |
| LogManager.Manager.GetLoggerInfo | log/LogManager.cpp:296-315 | the longest configured dot-boundary prefix, or Root |
| LogRouting.AddedMore | log/SinkInfo.h:19-26 | AddFilter widens one sink by one disjunct and no other |
| LogRouting.FiltersAdded | log/LogManager.cpp:283-286 | adding the filter of a logger to its sinks widens exactly those |
| LogRouting.Activated | log/LogManager.cpp:283-286 | activation keeps "redirects exactly what some activated linked logger covers" |
| LogRouting.CallsBySet | log/LogManager.cpp:272-290 | after any sequence of calls the loggers and the redirected records depend only on the set of loggers asked for, each added once |
| LogRouting.OrderIrrelevant | log/LogManager.cpp:272-290 | two sequences of calls for the same set of loggers activate the same loggers and pass the same records |
| LogManager.Manager.Activate | log/LogManager.cpp:278-287 | interval and filter are added to each linked sink, once |
| LogManager.Manager.GetLogger | log/LogManager.cpp:272-290 | resolves the name; the first call activates, later calls change nothing |
| LogManager.Manager.GetLoggers | log/LogManager.cpp:272-290 | a sequence of calls is the fold of the single calls over the resolved loggers |
| LogRouting.RootInterval | log/LogManager.cpp:317-329 | Root's interval holds no other logger; it disagrees with ancestry exactly for names below "Root." |
| LogRouting.LoggerInterval | log/LogManager.cpp:285-285 | for configured loggers the interval test is ancestry when Root is not used as a section name |
| LogRouting.Delivery | log/SinkInfo.h:28-31 | a sink takes a record exactly when its own filter does and an activated ancestor-or-self, as it was when activated, is linked to it and accepts it |
| LogRouting.EarlyRootSendsNothing | log/LogManager.cpp:183-190 | records of a Root activated before it was configured do not reach the sinks it is linked to |
| LogRouting.FollowsLinksExactly | log/LogManager.cpp:272-290 | delivery follows the loggers as they are now if and only if Root was not activated before it was configured or has no sink that would take a record of Root |
| LogManager.Manager.DeliveryFollowsLinks | log/LogManager.cpp:272-290 | the same in every state of the manager |
| LogManager.RootBeforeConfig | log/LogManager.cpp:331-339 | a GetLogger call before the configuration: whenever the files load, Root ends up linked as configured and sends nothing |
| LogManager.RootLosesRecord | log/LogManager.cpp:331-339 | a configuration with one sink and a Root logger loads, Root is active and linked, both filters accept the record, and the sink does not take it |
| LogManager.ConfigBeforeRoot | log/LogManager.cpp:331-339 | with the configuration first, no calls make Root early |
| LogManager.Manager.FiltFun | log/SinkInfo.h:28-31 | the same as an operation of the manager, also for the links as they are now |
| MemoDistri.NoWrap | serverManager/MemoDistri.h:26-29 | the 64-bit cross-multiplied comparison is exact up to 2^33 keys |
| MemoDistri.LessIsRatio | serverManager/MemoDistri.h:26-29 | the cross-multiplied comparison compares keys per unit of weight |
| MemoDistri.AtLeastTransitive | serverManager/MemoDistri.h:26-29 | the comparison is a weak order for positive weights |
| MemoDistri.PushHeap | serverManager/MemoDistri.cpp:6-7 | the contract of std::push_heap: a heap and a rearrangement |
| MemoDistri.PopHeap | serverManager/MemoDistri.cpp:61-61 | the contract of std::pop_heap: the front moved to the end, a heap before it, a rearrangement |
| MemoDistri.MissConcentrated | serverManager/MemoDistri.cpp:51-65 | after any conforming rearrangement the bumped front server is still in front |
| MemoDistri.RemoveConcentrated | serverManager/MemoDistri.cpp:10-37 | erasing without rebuilding the heap keeps the invariant |
| MemoDistri.StepConcentrated | serverManager/MemoDistri.cpp:4-80 | every operation keeps all load at the front; every answer is the front server |
| MemoDistri.LookupIs | serverManager/MemoDistri.cpp:39-74 | the answer is the front server, memoised for the key afterwards and before if any was; nothing else is memoised |
| MemoDistri.ReachableConcentrated | serverManager/MemoDistri.cpp:4-80 | the same in every state of every run |
| MemoDistri.MemoIsSticky | serverManager/MemoDistri.cpp:47-71 | a memoised key keeps its server until that server is removed or all is cleared |
| MemoDistri.StepMembers | serverManager/MemoDistri.cpp:4-80 | how each operation changes the listed servers |
| MemoDistri.MemoDistri.Add | serverManager/MemoDistri.cpp:4-8 | an allowed step of the state machine |
| MemoDistri.MemoDistri.Remove | serverManager/MemoDistri.cpp:10-37 | an allowed step of the state machine |
| MemoDistri.MemoDistri.Get | serverManager/MemoDistri.cpp:39-74 | an allowed step of the state machine, with its answer |
| MemoDistri.KeysOf | serverManager/MemoDistri.cpp:24-31 | exactly the keys of a server |
| HashRing.NearestIsSuccessor | serverManager/ConsistentHashDistri.cpp:57-68 | the least point at or above the hash, else the least of all, is nearest going upwards |
| HashRing.AddMovesOnlyToServer | serverManager/ConsistentHashDistri.cpp:9-23 | adding a server changes an owner only to that server, collisions included |
| HashRing.RemoveMovesOnlyFromServer | serverManager/ConsistentHashDistri.cpp:34-51 | removing a server keeps every owner other than that server |
| HashRing.AddThenRemove | serverManager/ConsistentHashDistri.cpp:9-51 | the identity exactly when the server was absent and its points were free |
| HashRing.AddsCommute | serverManager/ConsistentHashDistri.cpp:9-23 | two adds commute exactly when the servers share no point |
| HashRing.ApplyKeepsRing | serverManager/ConsistentHashDistri.cpp:9-51 | an operation keeps the ring a function of the live servers if and only if an added server shares no point with another live one |
| HashRing.ReplayIsRingOfLive | serverManager/ConsistentHashDistri.cpp:9-51 | if each server is added with points disjoint from those of the other live servers, the ring holds exactly the points of the live servers |
| HashRing.RingOfLiveExactly | serverManager/ConsistentHashDistri.cpp:9-51 | it does so after every operation of a history if and only if each server is added like that |
| HashRing.ReconnectIsFree | serverManager/ServerList.cpp:26-30 | a server may be removed and a new one with the same points added |
| HashRing.OwnerIsPicked | serverManager/ConsistentHashDistri.cpp:53-71 | in such a ring the owner of a hash is picked by the points of the live servers alone |
| HashRing.HistoryIndependent | serverManager/ConsistentHashDistri.cpp:9-76 | such histories with the same live servers give the same ring |
| HashRing.SameAnswers | serverManager/ConsistentHashDistri.cpp:53-71 | rings whose servers are alike in name and weight answer servers that are alike for every hash |
| Words.AndBit | serverManager/ConsistentHashDistri.cpp:11-11 | the mask keeps a bit exactly when both numbers have it |
| ConsistentHashDistri.RoundsIs | serverManager/ConsistentHashDistri.cpp:11-12 | how many digests a count of replications gives, in arithmetic |
| ConsistentHashDistri.TextReadBack | serverManager/ConsistentHashDistri.cpp:14-14 | the hashed text begins with host and port, and the rest is the only notation of the running number |
| ConsistentHashDistri.SameText | serverManager/ConsistentHashDistri.cpp:14-14 | for one running number two servers hash one text exactly when they have one name |
| ConsistentHashDistri.SharedText | serverManager/ConsistentHashDistri.cpp:14-14 | for any running numbers, exactly when one name continues the other with digits that the other number has in front |
| ConsistentHashDistri.PortsSharePoints | serverManager/ConsistentHashDistri.cpp:12-22 | servers of one host on ports 1121 and 11211 share points |
| ConsistentHashDistri.PointsAreRead | serverManager/ConsistentHashDistri.cpp:12-22 | the points are those of the digests of host, port and running numbers |
| ConsistentHashDistri.BytesInjective | serverManager/ConsistentHashDistri.cpp:14-14 | different texts of one-byte characters are hashed as different bytes |
| ConsistentHashDistri.PointCharacters | serverManager/ConsistentHashDistri.cpp:25-32 | each of the four characters can be recovered from the point |
| ConsistentHashDistri.HexInjective | utils/md5.cpp:327-339 | different bytes have different hexadecimal texts |
| DecimalText.NumberOfDecimal | serverManager/ServerItem.h:25-28 | the decimal text of a number can be read back |
| DecimalText.DecimalOfNumber | serverManager/ServerItem.h:25-28 | digits without a superfluous zero are the decimal text of their number |
| Servers.SharedName | serverManager/ServerItem.h:25-28 | two addresses share a name exactly when one host continues the other with digits that the other port has in front |
| Servers.SharedNameExample | serverManager/ServerItem.h:25-28 | 10.0.0.1 with port 11211 and 10.0.0.11 with port 1211 |
| ConsistentHashDistri.PointsSpelt | serverManager/ConsistentHashDistri.cpp:12-31 | every point of a server is spelt by four hexadecimal digits of its digests |
| ConsistentHashDistri.SpeltRange | serverManager/ConsistentHashDistri.cpp:25-32 | such points lie between 0x30303030 and 0x66666666 |
| ConsistentHashDistri.FewPoints | serverManager/ConsistentHashDistri.cpp:12-31 | a circle has at most 65536 points |
| ConsistentHashDistri.HighHashGoesToLeast | serverManager/ConsistentHashDistri.cpp:57-68 | a hash above 0x66666666 belongs to the owner of the least point |
| ConsistentHashDistri.ConsistentHashDistri.Add | serverManager/ConsistentHashDistri.cpp:9-23 | exactly the server's points are set to it |
| ConsistentHashDistri.ConsistentHashDistri.Remove | serverManager/ConsistentHashDistri.cpp:34-51 | exactly the server's points are erased |
| ConsistentHashDistri.ConsistentHashDistri.Get | serverManager/ConsistentHashDistri.cpp:53-71 | the owner of the nearest point, none exactly on an empty circle |
| ModuloDistri.AnswersAreListed | serverManager/ModuloDistri.cpp:21-30 | all answers are live exactly when all listed servers are |
| ModuloDistri.OnlyEmptyAgrees | serverManager/ServerList.cpp:87-90 | after adding the live servers to a list, none is listed twice and all are live exactly when the list was empty before |
| ModuloDistri.ModuloDistri.Add | serverManager/ModuloDistri.cpp:2-5 | the server is appended |
| ModuloDistri.ModuloDistri.Remove | serverManager/ModuloDistri.cpp:7-19 | the first occurrence is erased |
| ModuloDistri.ModuloDistri.Get | serverManager/ModuloDistri.cpp:21-30 | the server at the hash modulo the length, none exactly on an empty list |
| ServerList.AddTo | serverManager/DistributeAlgorithm.h:13-13 | no algorithm gains a server but the added one; modulo and memo gain it, a ring exactly its points |
| ServerList.RemoveFrom | serverManager/DistributeAlgorithm.h:14-14 | every algorithm loses exactly the removed server, a ring exactly its points |
| ServerList.GetFrom | serverManager/DistributeAlgorithm.h:15-15 | modulo: the server at the hash modulo the length; memo: the front server, memoised for the hash; ring: the owner of the nearest point; listing does not change |
| ServerList.ClearAll | serverManager/ModuloDistri.h:13-13 | memo and ring become empty; a modulo list is not cleared |
| ServerList.ServerList.Add | serverManager/ServerList.cpp:12-42 | added exactly when the name is new; list and algorithm still agree, and a ring gains exactly the points |
| ServerList.ServerList.Remove | serverManager/ServerList.cpp:44-59 | removed exactly when present; list and algorithm still agree, and a ring loses exactly the points |
| ServerList.ServerList.Get | serverManager/ServerList.cpp:61-65 | never a server absent from the list; with modulo the one at the hash modulo the length; with memo the front one, memoised for the key; with a ring the owner of the nearest point, picked by the live servers alone if servers that are live together share no point |
| ServerList.ServerList.RunMemo | serverManager/ServerList.cpp:12-65 | over every run of operations with the memo algorithm a memoised key keeps its server, and every lookup answers it, unless the run removes that server |
| ServerList.ServerList.GetByAddress | serverManager/ServerList.cpp:67-78 | the server standing under that name, if any |
| ServerList.ServerList.AddServers | serverManager/ServerList.cpp:87-90 | the loop lists no server but the live ones, and an exact algorithm all of them |
| ServerList.ServerList.SetDistributeAlgorithm | serverManager/ServerList.cpp:80-97 | the new algorithm agrees with the list and the old one is cleared |
| ServerList.ServerList.RingOfLive | serverManager/ServerList.cpp:12-97 | over every run, reconnects included, in which each server is added with points disjoint from those of the other live servers the ring holds the points of exactly the live servers |
| ServerList.SameNamesSameAnswers | serverManager/ServerList.cpp:12-97 | two lists of the same names answer servers of the same name for every hash, whatever happened before |
| ServerList.SameServersSameRing | serverManager/ServerList.cpp:12-97 | with the same server objects even the rings are the same |
| TcpWriter.TidyExactly | network/TcpClient.cpp:102-152 | at most one outstanding write, for the write buffers, in all states of a run if and only if no empty request reaches an idle writer |
| TcpWriter.TwoWritesInFlight | network/TcpClient.cpp:116-127 | an empty request and then another put two writes in flight |
| TcpWriter.RunAccounted | network/TcpClient.cpp:102-152 | sent bytes, write buffers and pending buffers are consecutive whole submissions |
| TcpWriter.Conservation | network/TcpClient.cpp:102-152 | together they are all submissions in order; with nothing outstanding everything has gone out |
| TcpWriter.SentIsPrefix | network/TcpClient.cpp:131-171 | even when writes fail the bytes sent are a prefix of the submissions |
| TcpWriter.FailedWrite | network/TcpClient.cpp:136-151 | a failing write puts out exactly its first bytes, starts no other and closes |
| TcpWriter.TcpClient.Send | network/TcpClient.cpp:131-135 | the vectors are swapped and a write of the new write buffers is started |
| TcpWriter.TcpClient.OnSend | network/TcpClient.cpp:102-129 | the submit step of the machine |
| TcpWriter.TcpClient.OnWriteCompleted | network/TcpClient.cpp:136-151 | the completion steps of the machine |
| Framing.AdjustEndian | memcachedClient/MemcachedClient.cpp:110-118 | lengths converted, status converted twice and so as stored, cas and opaque as stored |
| Framing.HeaderRoundTrip | memcachedClient/MemcachedClient.cpp:35-37 | the fields of an encoded header are read back (section 2 of draft-stone-memcache-binary-01) |
| Framing.HeaderLayout | memcachedClient/MemcachedClient.cpp:35-37 | the bytes of the header, one field after the other (section 2 of draft-stone-memcache-binary-01) |
| Framing.HeaderIs | memcachedClient/MemcachedClient.cpp:110-118 | where the fields are read before and after the exchange of bytes |
| Framing.PreparedIsBody | memcachedClient/MemResult.cpp:26-89 | the prepared buffers take exactly the body if and only if extras and key have the expected shape |
| Delivery.HeaderAligned | memcachedClient/MemcachedClient.cpp:29-63 | a header keeps the reader of its connection aligned if and only if the client goes on to read exactly its body |
| Delivery.AlignedExactly | network/TcpClient.cpp:46-100 | the same for all states of a run and each connection, with any responses, ids and kinds of requests, whatever the other connections bring |
| Delivery.BodyScatters | memcachedClient/MemResult.cpp:26-89 | each part of a fitting body lands in its own buffer, for every kind of result |
| Delivery.AnswersExactly | memcachedClient/MemResult.cpp:26-89 | a response is well-formed for a kind and buffer exactly when the prepared buffers take its body and each part lands in its own |
| Delivery.HeaderAllocates | memcachedClient/MemResult.cpp:26-42 | a missing value buffer is allocated with the size of the first value that needs it |
| Delivery.DueFits | memcachedClient/MemResult.cpp:26-89 | a well-formed response to a live request, or an empty one to none, is read exactly |
| Delivery.HeaderInv | memcachedClient/MemcachedClient.cpp:29-63 | reading a header keeps alignment and what the results hold |
| Delivery.BodyInv | memcachedClient/MemcachedClient.cpp:65-88 | a body that is awaited can be read, and reading it keeps the invariant |
| Delivery.MovedInv | memcachedClient/MemcachedClient.cpp:15-19 | what one connection does to the shared results keeps what is known of the other connections |
| Delivery.RunInvariant | network/TcpClient.cpp:46-100 | in every state of every run with due responses on any number of connections, Stat included, each header read starts at a response boundary, the result of each issued request holds exactly the values sent to it as the issued kind says, and what has been handled merges the connections in their own orders |
| Requests.RunAsIssued | memcachedClient/MemGet.cpp:8-16 | in every state of every run each result is of the kind that was issued under its id, with the buffer given there |
| Delivery.CompletionLedger | memcachedClient/MemcachedClient.cpp:65-100 | exactly the responses handled for live requests post completions, except for a Stat request whose flag is set; repeated ids included |
| Completion.DrainExactly | memcachedClient/MemcachedClient.cpp:90-100 | all posted handlers find their requests if and only if they are for different live requests |
| Completion.StepSafe | memcachedClient/MemcachedClient.cpp:29-100 | a step keeps this if and only if it does not finish a request whose handler is posted |
| Completion.SafeExactly | memcachedClient/MemcachedClient.cpp:15-100 | on any number of connections and any input: every posted handler finds its request in all states of a run if and only if no response finishes a request whose handler is waiting |
| Completion.DuplicateResponse | memcachedClient/MemcachedClient.cpp:90-100 | two responses with one id in a row, on one connection or two, leave a handler for an erased request |
| Completion.CompletionSafety | memcachedClient/MemcachedClient.cpp:15-100 | with ids distinct over all connections every posted handler finds its request, completions are one per handled response with its status, merged in the order of each connection, and live requests are those issued and not notified |
| Completion.NoSecondCompletion | memcachedClient/MemcachedClient.cpp:90-100 | in every state of such a run no request has been notified or posted twice |
| Requests.MemcachedClient.IssueRequest | memcachedClient/MemGet.cpp:8-16 | the issue step: the next id and a new live request |
| Requests.MemcachedClient.FillReceiveBuffer | memcachedClient/MemResult.cpp:26-89 | the buffers prepared for the kind of result; a missing value buffer is allocated once |
| Requests.MemcachedClient.Finish | memcachedClient/MemcachedClient.cpp:90-100 | posts a completion unless a Stat result expects more |
| Requests.MemcachedClient.OnHeaderReaded | memcachedClient/MemcachedClient.cpp:29-63 | finishes, asks for a body with the prepared buffers (also for a negative length), or ignores an unknown id |
| Requests.MemcachedClient.ReadHeader | network/TcpClient.cpp:46-74 | the header step of the machine |
| Requests.MemcachedClient.ReadBody | network/TcpClient.cpp:83-94 | the body step of the machine |
| Requests.MemcachedClient.Notify | memcachedClient/MemcachedClient.cpp:94-98 | the completion step of the machine |
| Wildcard.ReplaceLoop | common/FileHandler.cpp:70-78 | the in-place loop replaces the leftmost non-overlapping occurrences |
| Wildcard.EmptyNeverEnds | common/FileHandler.cpp:70-78 | with an empty search string no number of rounds ends the loop, and each puts one more copy in front |
| Wildcard.EscapeOneMore | common/FileHandler.cpp:23-35 | escaping one more character after the backslash is one larger character map |
| Wildcard.PieceIs | common/FileHandler.cpp:23-38 | what becomes of each character |
| Wildcard.QuestionPass | common/FileHandler.cpp:37-37 | only escaped question marks change, also behind literal backslashes |
| Wildcard.StarPass | common/FileHandler.cpp:38-38 | only escaped stars change, also behind literal backslashes |
| Wildcard.Wildcard2Regex | common/FileHandler.cpp:21-40 | the fifteen passes are one map per character followed by an end anchor |
| Wildcard.ParseTranslate | common/FileHandler.cpp:21-40 | a pattern whose braces cannot be counts reads back as one node per character |
| Wildcard.WildcardMeaning | common/FileHandler.cpp:45-48 | then a search succeeds exactly when the wildcard matches a piece that ends at a line end |
| Wildcard.WildcardMatchesSuffix | common/FileHandler.cpp:45-48 | on one line: exactly when it matches a suffix |
| Wildcard.InstanceOnlyInert | common/FileHandler.cpp:21-40 | a pattern matches a piece of the shortest text its translation finds only from the start, and only if no brace is read as part of a count |
| Wildcard.BracesExactly | common/FileHandler.cpp:21-48 | the translation can be read and means the wildcard if and only if no brace is read as part of a count |
| Wildcard.CountedExample | common/FileHandler.cpp:21-48 | a{2} finds aa, which the wildcard does not match |

## Left out

- Md5Sines.SineAddition: the sine itself is not defined; the constants are tied together by its addition theorem and to its power series at 1 and 2.
- Md5.Md5.Update: chunks on which the 32-bit loop counter wraps are excluded by the precondition; `Md5.LoopEnds` proves that the loop never ends on exactly those.
- MemoDistri.MemoDistri.Add: at most 2^33 memoised keys; weights are positive.
- MemoDistri.MemoDistri.Get: at most 2^33 memoised keys, below which no 64-bit product can wrap; weights are positive.
- ServerList.ServerList.SetDistributeAlgorithm: the installed algorithm is empty and not the current one; installing one that still lists servers, such as a modulo list that `Clear` left as it was, is not modelled; `ModuloDistri.OnlyEmptyAgrees` shows that for a modulo list only an empty one agrees.
- ConsistentHashDistri.ConsistentHashDistri.Add: the product of replications and weight fits a 32-bit int, and server names are shorter than 2^31 characters.
- ServerList.ServerList.Add: server names shorter than 2^31 characters, as for the circle.
- LogManager.Manager.LoadLogger: at most eight levels, component names non-empty and without dots; beyond that the source indexes outside its tables.
- LogManager.Manager.LinkLoggersWithSinks: a logger's sink names arrive already split at the commas.
- Wildcard.WildcardMeaning: the regular-expression library is represented by a reader for the syntax that the passes produce, with counts as in section 15.10.1 of ECMA-262; the end anchor also holds before a newline.
- Delivery.RunInvariant: no server removal; responses are due when their headers are read. What happens on other responses is given by `Delivery.AlignedExactly`.
- Completion.CompletionSafety: no Stat requests, whose flag for more results is never initialised; for those `Completion.SafeExactly` and `Delivery.RunInvariant` hold with any value of the flag.
- Requests.MemcachedClient.FillReceiveBuffer: a negative value length becomes a huge size; failing to allocate it is not modelled.
- Config file parsing, sink construction and nested sink sections, directory walking, file rewriting.
- Sockets, name resolution, connecting and closing, signals, mutexes and thread pools: reduced to events of one io thread.
- Request encoders, buffer ownership and pools, waiting in `MemResult::Finish`, and the meaning of status codes.
- Stat streams: when a Stat request completes, because the flag is never initialised in the source.
