# Verified model of the MQSS client

A Dafny model of the logic inside the MQSS client library (C++), with proofs. The parts that
decide something are modelled: the request/reply protocol of the HPC client over RabbitMQ, the
parsers of resource descriptions, the normalization of REST base URLs, the C bindings that hand
out results and resources as C memory, the reading of time stamps, and the polling for results.

Run `dafny verify dfyconfig.toml` in this directory.

| file | what it holds |
|---|---|
| `Wrappers.dfy`, `Text.dfy`, `Json.dfy` | options and results, numerals and machine integers, JSON documents |
| `Protocol.dfy`, `ProtocolTheorems.dfy` | clients, queues and workers as a state machine over all interleavings; what every run keeps |
| `ProtocolFailures.dfy` | what failing receives leave behind, and exactly when calls stay matched |
| `ProtocolReplies.dfy` | where replies come from and where they go, over every run |
| `HpcClient.dfy` | the HPC client, its RabbitMQ connection and the broker as objects that take the protocol's steps |
| `Regex.dfy` | matching declaratively, the backtracking engine, the iterator, deterministic patterns |
| `ResourceParser.dfy`, `ResourceTheorems.dfy` | coupling maps and gates as iterator loops; all occurrences, independence of gates, round trips |
| `ResourceTexts.dfy` | the patterns character by character, the texts that Python prints, and what is not read |
| `RestUrl.dfy` | `normalizeUrl`, its documented specification, idempotence, canonical form |
| `CHeap.dfy`, `JobCounts.dfy`, `ResourceInfo.dfy` | the C heap with a failing `malloc`, flattening into C arrays, cleanup |
| `Timestamp.dfy` | the calendar by counting days, its inverse, the closed formula, printed stamps |
| `JobResult.dfy`, `JobClient.dfy` | decoding of job results, polling against an arbitrary server |
| `EndToEnd.dfy` | from printed text and JSON to the arrays a caller of the C bindings receives |

How the model reads the system:

- **Protocol.** A client call publishes one request on the shared listener queue, naming its own
  response queue, and blocks on that queue. Workers are environment: they take any pending request
  and post one reply to the queue it names. A queue is first in, first out (section 4.7 of the AMQP
  0-9-1 specification). `serial`, `from`, `answers`, `log` and `exchanges` are history that no step
  reads. In the objects, what everybody else does while a call blocks is a schedule of steps given
  to the call; a schedule that ends before a reply comes leaves the call blocked (`None`).
- **Regular expressions.** All four patterns are sequences of character classes taken once, at
  least once or any number of times. `Engine` tries repetitions longest first and backtracks, as
  ECMAScript prescribes; `FindAll` is what a `sregex_iterator` visits. `std::stoi` is modelled with
  its error cases, and a parse that throws returns the error instead of a list.
- **URLs.** libcurl is an arbitrary acceptance predicate, and the scheme is the lower-cased text
  before the first `://` (section 3.1 of RFC 3986). `tolower` is that of the "C" locale.
- **C heap.** A map from addresses to blocks. An oracle decides call by call whether `malloc`
  fails, so a null result for a size of zero is covered too; otherwise any unused address may come
  back. `Free` accepts only a live block or null, so that no block is freed twice is part of every
  proof. Cells are unreadable until written. `operator new` is assumed to succeed.
- **Time.** `mktime` is the Seconds Since the Epoch formula (Base Definitions, section 4.16 of IEEE
  Std 1003.1-2017) minus a fixed zone offset. The calendar it is proved against counts days year by
  year and month by month. Polling time is time spent sleeping.

Where the code and its documentation or its evident purpose disagree, the model follows the code:

- `docs/examples.md` says that the supplied host name is preserved; the portal form writes it in
  lower case. `RestUrl.HostPreservedIffLowerCase` says exactly when it is preserved,
  and `RestUrl.CapitalIsLowered` is a host that is not.
- A time stamp fraction is read as a number of microseconds whatever its number of digits, and a
  time before the Epoch (east of UTC the first hours of 1970 are) wraps around in 64 bits.
  `Timestamp.StampExactIff` says exactly which stamps are read right;
  `Timestamp.MillisecondsAreMisread` and `Timestamp.EastOfUtcWraps` are stamps that are not.
- The timeout is a `size_t` in the interface and an `int` in the loop. `JobClient.NarrowedTimeout`
  says exactly when it counts in full; `JobClient.FirstLostTimeout` is the first that does not.
- `receive` returns an error text in place of a reply and leaves the reply to come. A later call can
  then be given that reply. `ProtocolFailures.SafeIffReliable` says that calls are sure to stay
  matched exactly after runs in which no receive has failed, and
  `ProtocolFailures.InFlightCountsFailures` how much is left over after any run. The objects of
  `HpcClient` assume receives that succeed.

## Model

| member | source | states |
|---|---|---|
| ProtocolTheorems.RunsAreSafe | src/clients/hpc_client.cpp:55-98 | in every run of clients with distinct response queues, workers answering in any order: each client has exactly one request, held request or reply under way while it waits and none otherwise; completed calls hold their own reply; no request completes twice; published requests = completed calls + calls under way |
| ProtocolTheorems.DeliveredReplyIsOwn | src/clients/hpc_client.cpp:65-68 | the reply delivered to a blocked client answers the last request that this client published, and leaves nothing under way for it |
| ProtocolTheorems.SafeIffDistinct | src/clients/hpc_client.cpp:44-46 | without correlation ids no run mixes up replies if and only if all response queue names differ |
| ProtocolTheorems.SharedNameMismatches | src/clients/hpc_client.cpp:44-46 | two clients that share a response queue have a run in which one gets the other's reply |
| ProtocolTheorems.WaitingCallCanComplete | src/clients/hpc_client.cpp:81-84 | from every reachable state a blocked call can be completed by worker steps and its own receive alone, with its own reply |
| ProtocolFailures.SafeIffReliable | src/clients/rabbitmq_client.cpp:75-77 | for distinct response queues and any run, failing receives included: whatever happens next without a further failure, no call completes with another call's reply, if and only if no receive has failed in the run |
| ProtocolFailures.InFlightCountsFailures | src/clients/rabbitmq_client.cpp:65-86 | after any run at all, what is under way for a client is one for the call it waits for and one for each of its receives that failed |
| ProtocolFailures.FailedReceiveMismatches | src/clients/rabbitmq_client.cpp:75-77 | from every reachable state in which a client waits, a failing receive can be followed by a call of that client that completes with the reply to the abandoned one |
| ProtocolReplies.RepliesConserved | src/clients/rabbitmq_client.cpp:65-86 | after any run, the replies that workers posted to a client's queue, with their texts, are those of its completed calls, then the one it holds, then those still waiting: none lost, none twice, none from elsewhere, first in, first out |
| ProtocolReplies.ExchangeWasPosted | src/clients/hpc_client.cpp:65-68 | for every completed call of any run there is a step at which a worker posted that text while it held the request that the reply answers |
| ProtocolReplies.ListenerInOrder | src/clients/rabbitmq_client.cpp:54-63 | requests wait in the listener queue as published and in the order of publishing |
| Protocol.StepKeeps | src/clients/hpc_client.cpp:55-98 | every step of a client or worker keeps the inductive invariant |
| Protocol.RunKeeps | src/clients/hpc_client.cpp:55-98 | so does every run without a failing receive |
| Protocol.InitInv | src/clients/hpc_client.cpp:38-53 | the invariant holds before the first call when the response queues differ |
| HpcClient.Broker.Perform | src/clients/rabbitmq_client.cpp:54-86 | an enabled step is taken and a disabled one changes nothing; the queues stay those of some run |
| HpcClient.RabbitMQClient.DeclareQueue | src/clients/rabbitmq_client.cpp:88-96 | a queue is declared to the broker only if the cache does not have it, and then joins the cache; the cache has no duplicates and is exactly what was declared |
| HpcClient.RabbitMQClient.SendTo | src/clients/rabbitmq_client.cpp:54-63 | a publish to the listener queue that goes through is the client's send step; one that fails leaves the queues unchanged and returns an error |
| HpcClient.RabbitMQClient.Receive | src/clients/rabbitmq_client.cpp:65-86 | under every schedule of the others, before delivery and between delivery and acknowledgement, the call stays blocked on an empty queue or completes, acknowledged once, with the text that a worker posted while it held exactly the request that this client waited for |
| HpcClient.MQSSHPCClient.constructor | src/clients/hpc_client.cpp:38-53 | the listener queue and the client's response queue are declared, once if they coincide |
| HpcClient.MQSSHPCClient.Get | src/clients/hpc_client.cpp:55-69 | publishes a GET naming the own response queue; if it returns, it returns the text that some worker posted during the call while it held exactly that request |
| HpcClient.MQSSHPCClient.Post | src/clients/hpc_client.cpp:71-85 | likewise for POST with its data |
| HpcClient.MQSSHPCClient.Del | src/clients/hpc_client.cpp:87-98 | likewise for DELETE; it throws exactly when the send fails, and then every queue is as before |
| HpcClient.Session | src/clients/rabbitmq_client.cpp:88-96 | over a whole session every queue is declared before it is used, none twice, and only two: the configured listener or the default one of the host, and the response queue of host and identifier |
| Regex.EngineSound | src/resource.cpp:42-45 | what the engine returns is a match at the front of the text |
| Regex.EngineComplete | src/resource.cpp:42-45 | the engine misses no match and returns the one that greedy repetition prefers to every other |
| Regex.MatchIsUnique | src/resource.cpp:106-118 | if every repeated class is disjoint from what must follow, a start has at most one match |
| Regex.ScanIsEngine | src/resource.cpp:106-118 | on such patterns one pass without backtracking gives what the backtracking engine gives |
| Regex.SearchIsLeftmost | src/resource.cpp:44-47 | searching finds the first occurrence and nothing before it |
| Regex.FindAllChains | src/resource.cpp:109-120 | for every pattern, the iterator visits the leftmost match, then the leftmost one at or after its end, and so on until there is none |
| Regex.FindAllInOrder | src/resource.cpp:44-47 | the iterator visits matches in strictly ascending position |
| Regex.NoOverlap | src/resource.cpp:42-47 | two occurrences of a pattern whose first character cannot recur in a match never overlap |
| Regex.FindAllMissesNone | src/resource.cpp:42-47 | the iterator misses no occurrence of such a pattern |
| ResourceParser.ExtractCouplingMap | src/resource.cpp:31-55 | the loop returns the pairs of all matches in order, nothing for a missing or non-text member or None, and an error at the first number beyond int |
| ResourceParser.ExtractQubits | src/resource.cpp:128-137 | the loop over one tuple returns its numbers in order |
| ResourceParser.ExtractGates | src/resource.cpp:94-148 | the nested loops with one reused accumulator return for each match the gate that this match alone stands for, or the first error and no list |
| ResourceTheorems.PatternsAreDeterministic | src/resource.cpp:42-118 | coupling, gate and tuple patterns match in at most one way from a start and need no backtracking |
| ResourceTheorems.CouplingIsAllOccurrences | src/resource.cpp:42-54 | for every text, the result lists the pairs at all offsets where the pattern occurs, in order, none missed |
| ResourceTheorems.CouplingFailsIff | src/resource.cpp:48-49 | extraction throws if and only if some occurrence holds a number beyond int |
| ResourceTheorems.QubitsOkIff | src/resource.cpp:128-137 | reading the numbers of any text succeeds if and only if every numeral in it (a maximal run of digits) is within int |
| ResourceTheorems.GatesAreIndependent | src/resource.cpp:109-145 | reading succeeds if and only if every match names a known gate and every numeral in its tuples is within int; the k-th gate then has the name, tuples and table counts of the k-th match only |
| ResourceTheorems.FirstBadGateDecides | src/resource.cpp:142 | the first match with an unknown name makes the whole call fail with that name |
| ResourceTheorems.KnownIffTable | src/resource.cpp:57-92 | exactly the ten listed names are in the gate table |
| ResourceTheorems.TableCounts | src/resource.cpp:60-89 | two qubits for cz, rxx and swap and one for the others; two parameters for r, one for rx, rz and rxx, else none |
| ResourceTheorems.TableEntries | src/resource.cpp:60-89 | the ten entries of the table |
| ResourceTheorems.NumbersRoundTrip | src/resource.cpp:130-137 | the numbers of a printed tuple are read back in order |
| ResourceTheorems.TuplesRoundTrip | src/resource.cpp:118-140 | the tuples of a printed body are read back in order, of any length, empty ones included |
| ResourceTheorems.GatesRoundTrip | src/resource.cpp:106-147 | every list of known gates, printed with either quote and any of the six white-space characters where the pattern allows them, is read back with names, tuples and order, and the table's counts |
| ResourceTheorems.CouplingRoundTrip | src/resource.cpp:42-54 | every list of pairs within int, printed with any of the six white-space characters inside pairs, is read back in order |
| ResourceTexts.CouplingReads | src/resource.cpp:42 | a coupling is, character by character: bracket, digits, comma, white space, digits, bracket |
| ResourceTexts.GateReads | src/resource.cpp:106-107 | a gate is: parenthesis, quoted name, comma, braces around anything but braces, parenthesis, with white space between |
| ResourceTexts.TupleReads | src/resource.cpp:118 | a tuple is: anything but a closing parenthesis, one, a colon and None, with white space between |
| ResourceTexts.PythonCouplingRead | tests/unit/c++/resource_unit_test.cpp:32 | every list of pairs as Python prints it, with single blanks, is read back |
| ResourceTexts.PythonGatesRead | src/resource.cpp:94-148 | every list of known gates as Python prints it, with single blanks and single quotes, is read back |
| ResourceTexts.TwoPairsRead | tests/unit/c++/resource_unit_test.cpp:32 | `[[0, 2], [2, 0]]` gives the two pairs |
| ResourceTexts.CzRead | src/resource.cpp:106-147 | `[('cz', {(0, 1): None})]` gives one gate on qubits 0 and 1 |
| ResourceTexts.GapReadIff | src/resource.cpp:42-52 | a pair with any text without digits after its comma is read if and only if that text is white space; otherwise nothing is read |
| RestUrl.NormalizeUrl | src/clients/rest_client.cpp:26-78 | throws exactly for URLs that are malformed, refused by libcurl or neither http nor https; otherwise returns the normal form |
| RestUrl.MatchPortal | src/clients/rest_client.cpp:64-74 | the port dropping and the loop over the two domains give the portal form exactly for portal hosts |
| RestUrl.AcceptedIff | src/clients/rest_client.cpp:32-55 | accepted are exactly the URLs that libcurl accepts, that have no blank, control character, `?` or `#`, and whose first `://` stands between http or https in any case and a name |
| RestUrl.MalformedIff | src/clients/rest_client.cpp:32-40 | the guard refuses exactly the URLs with a blank, a query, a fragment, no separator or no authority |
| RestUrl.NormalMeetsDocumentation | docs/examples.md:18-30 | a URL that spells a portal (https in any case; a host that ends, in any case, in `.quantum.lrz.de` or `.quantumpathway.eu` after a non-empty prefix; `:4000` or none; one of four paths) becomes `https://host:4000/v1/` with a host that differs in letter case only and has no capital; every other URL is kept up to one trailing slash |
| RestUrl.FormMeansSpelled | docs/examples.md:18-30 | only a spelling of a portal is normalized to such a form |
| RestUrl.SpellingIsPortal | src/clients/rest_client.cpp:57-73 | every spelling is recognized and its host read off in lower case |
| RestUrl.PortalIsSpelling | src/clients/rest_client.cpp:57-73 | only spellings are recognized |
| RestUrl.NormalIsIdempotent | src/clients/rest_client.cpp:57-77 | normalizing twice is normalizing once, in both branches; the result is accepted again when libcurl's acceptance is closed under the normal form |
| RestUrl.SlashKeepsParts | src/clients/rest_client.cpp:77 | the added slash never makes a portal of a URL that is none |
| RestUrl.PortalsHaveOneForm | src/clients/rest_client.cpp:59-75 | two spellings of portals have the same normal form if and only if their hosts are equal but for the case of letters, whatever their schemes' case, ports and paths |
| RestUrl.HostPreservedIffLowerCase | docs/examples.md:26 | the supplied host name is preserved if and only if it has no capital letter |
| RestUrl.CapitalIsLowered | docs/examples.md:26 | `https://A.quantum.lrz.de` becomes `https://a.quantum.lrz.de:4000/v1/` |
| CHeap.Heap.Malloc | src/c_bindings/job.cpp:69-70 | null exactly when the oracle says so, else an unused address; other blocks unchanged |
| CHeap.NullEndsText | src/c_bindings/job.cpp:93-94 | a C caller that reads the block of a terminated text gets it up to its first null character |
| CHeap.ReadsOneText | src/c_bindings/job.cpp:93-94 | what a C caller reads from a block is unambiguous |
| JobCounts.CountEntries | src/c_bindings/job.cpp:57-59 | the first pass counts the entries of all maps |
| JobCounts.FreeStrings | src/c_bindings/job.cpp:86-87 | the cleanup loop frees exactly the strings stored so far |
| JobCounts.StoreEntry | src/c_bindings/job.cpp:83-98 | one entry: its string, its address and its count are stored, or everything of the call is freed |
| JobCounts.GetJobResultCounts | src/c_bindings/job.cpp:49-103 | succeeds exactly when no argument is null and there is nothing to store or all n + 2 mallocs succeed; a negative return leaves the heap as on entry; size is n narrowed to int; after success the caller reads the i-th count, and behind the i-th pointer a terminated string that is the i-th key |
| JobCounts.EntryAt | src/c_bindings/job.cpp:78-100 | the j-th entry of the i-th map comes after all entries of the maps before it and j of its own |
| JobCounts.FilledIsHandedOut | src/c_bindings/job.cpp:78-102 | filled arrays read back as counts, pointers and C strings, each string block one longer than its key |
| JobCounts.FreedAll | src/c_bindings/job.cpp:86-90 | freeing the strings and both arrays gives back exactly the heap on entry |
| JobCounts.FilledMeans | src/c_bindings/job.cpp:78-102 | success adds exactly n + 2 blocks, old ones untouched; the arrays are the counts and strings of all entries, map by map in order |
| JobCounts.FlatteningKeepsTotal | src/c_bindings/job.cpp:96 | when the counts fit int, the array adds up to the total of all maps |
| ResourceInfo.Flatten2D | src/c_bindings/resource.cpp:27-47 | null exactly for a null count or a failing malloc, else one new block with all rows one after the other and its length in count |
| ResourceInfo.Asprintf | src/c_bindings/resource.cpp:63-64 | a new block with the text up to a null character, or nothing allocated |
| ResourceInfo.FillGates | src/c_bindings/resource.cpp:90-91 | one new object for each gate, its handle at the gate's position |
| ResourceInfo.GetInfo | src/c_bindings/resource.cpp:49-94 | the return code is decided by the first failing allocation, every negative return restores the heap and leaves no dangling out-pointer after cleanup, success fills every out-parameter |
| ResourceInfo.InfoMeans | src/c_bindings/resource.cpp:63-93 | success adds exactly 3 blocks and one for each gate, which read back as name (a C string), coupling map and gates |
| ResourceInfo.GetGateInfo | src/c_bindings/resource.cpp:96-126 | the code for every null argument and failing allocation; failure restores the heap, success adds the name as a C string and the flat tuples |
| ResourceInfo.ChunksIffWidth | src/c_bindings/resource.cpp:39-44 | cutting a flattened table by a width gives its rows back if and only if all rows have that width |
| Timestamp.ParseTimestamp | src/c_bindings/job.cpp:105-125 | on the printed stamp of every valid date from 1970: an error exactly for a fraction without digits or beyond int; in every zone within a day of UTC, the microseconds from the Epoch to the time denoted if and only if that is not before the Epoch and the fraction is missing, zero or of six digits |
| Timestamp.MkTimeIsEpoch | src/c_bindings/job.cpp:112 | the closed formula equals counting days by years and months |
| Timestamp.FromEpochInverts | src/c_bindings/job.cpp:112 | the calendar arithmetic is invertible |
| Timestamp.PrintedDateReads | src/c_bindings/job.cpp:108-110 | reading a printed date gives its fields |
| Timestamp.DatePositions | src/c_bindings/job.cpp:107-110 | in a printed date the year stands at 0, month at 5, day at 8, hour at 11, minute at 14 and second at 17, with their separators |
| Timestamp.LeapDayNumber | src/c_bindings/job.cpp:112 | the last second of 29 February 2024 is number 1709251199 |
| Timestamp.Year2000Number | src/c_bindings/job.cpp:112 | 1 March 2000 is at 951868800 |
| Timestamp.Year2100Number | src/c_bindings/job.cpp:112 | 1 March 2100 is at 4107542400 |
| Timestamp.StampExactIff | src/c_bindings/job.cpp:107-124 | the same of the value that parsing gives, as a lemma for all dates, fractions and zones |
| Timestamp.StampMeans | src/c_bindings/job.cpp:107-124 | without fraction, with a zero one or with six digits, dividing the parse result out gives date, time and microseconds back if and only if the stamp is not before the Epoch |
| Timestamp.FractionExactIff | src/c_bindings/job.cpp:117-121 | seconds and digits read as microseconds are the time denoted if and only if there are six digits or all are zero |
| Timestamp.BeforeEpochWraps | src/c_bindings/job.cpp:122-124 | a stamp before the Epoch becomes 2^64 less its distance from the Epoch in microseconds |
| Timestamp.EastOfUtcWraps | src/c_bindings/job.cpp:122-124 | the first second of 1970, one hour east of UTC, becomes 2^64 - 3600000000 |
| Timestamp.OnlyEpochIsZero | src/c_bindings/job.cpp:112 | the first second of 1970 is the only date and time at zero seconds |
| Timestamp.EpochText | src/c_bindings/job.cpp:107-110 | the first second of 1970 is printed as `1970-01-01 00:00:00` |
| Timestamp.MillisecondsAreMisread | src/c_bindings/job.cpp:117-121 | every stamp that ends in `.500` is parsed as 500 microseconds past the second where it denotes 500000 |
| Text.StoiReads | src/c_bindings/job.cpp:119 | stoi gives the signed number after any of six white-space characters, ignores what follows the digits, and fails beyond int |
| Text.StoiFails | src/c_bindings/job.cpp:119 | without a digit after white space and sign it fails |
| Text.DigitTable | src/resource.cpp:42 | the digits are the ten characters `0` to `9`, each denoting its place among them |
| Text.ValuePositional | src/c_bindings/job.cpp:119 | numerals are decimal: digits in front count ten times as much for each digit behind them |
| JobResults.DecodeMap | src/job.cpp:99-102 | the loop over the members inserts them one after the other into an ordered map |
| JobResults.DecodeMaps | src/job.cpp:89-104 | an array gives one map for each element, anything else a single map |
| JobResults.DecodeJobResult | src/job.cpp:81-110 | the whole constructor, including its early return and its throws |
| Json.FindIff | src/job.cpp:84-87 | a member is found exactly if the document is an object that has it, and then the first of that name |
| JobResults.LessIff | src/job.cpp:90 | keys are in lexicographic order |
| JobResults.MapEntries | src/job.cpp:91-93 | a decoded map has exactly the keys of the document, each with the count it has last |
| JobResults.CountsAre | src/job.cpp:93 | numbers are taken modulo 2^32, truth values are 0 and 1, text and null are refused |
| JobResults.ItemsAre | src/job.cpp:92 | elements of an array are keyed by their index, a lone value by the empty text |
| JobResults.DecodedEarly | src/job.cpp:84-87 | a reply without a result text throws; a result text that is no JSON gives no maps and no time stamps |
| JobResults.RequiredIs | src/job.cpp:107-109 | a required text that is missing and one of another type throw differently |
| JobResults.DecodedThrows | src/job.cpp:88-109 | the order of the throws: a value that is no count, then the time stamps of completion, submission and scheduling |
| JobResults.InsertSorted | src/job.cpp:94 | assignment into an ordered map keeps its order and changes only the given key |
| JobResults.DecodedMapsSorted | src/job.cpp:90-104 | every decoded map is in ascending key order |
| JobResults.ReplyRoundTrip | src/job.cpp:81-110 | a reply made for a result is decoded to that result, every map and time stamp in its place |
| JobResults.DecodedOkIff | src/job.cpp:84-109 | decoding succeeds if and only if every value is a count and the three time stamps are texts |
| JobClient.MQSSClient.GetJobStatus | src/client.cpp:90-106 | the status text of the next reply, empty for an empty, unparsable or status-less one |
| JobClient.StatusIff | src/client.cpp:93-105 | any other status than the empty one is the text of the reply's member `status` |
| JobClient.DecisiveIff | src/client.cpp:128-132 | COMPLETED, FAILED, CANCELLED and the empty status end a wait, and no other |
| JobClient.MQSSClient.WaitForJobResult | src/client.cpp:124-139 | terminates; polls exactly at 0, p, 2p, ... below the timeout up to the first decisive status; fetches the result once exactly when that is COMPLETED; sleeps k * p, or the whole timeout if nothing is decisive |
| JobClient.MQSSClient.GetJobResult | src/client.cpp:108-122 | waits with the timeout narrowed to int and period two, or fetches at once; a fetch hands out the very result that the reply holds, nothing exactly for an empty or unparsable reply, and throws exactly when decoding does; a wait that does not fetch hands out nothing |
| JobClient.ResultHanded | src/client.cpp:115-121 | the same of any reply: the result that it was made for comes out whole |
| JobClient.FetchesIff | src/client.cpp:124-139 | a wait fetches if and only if some poll below the timeout finds COMPLETED and no earlier one finds COMPLETED, FAILED, CANCELLED or no status |
| JobClient.PollsBelowTimeout | src/client.cpp:127-136 | poll k happens if and only if k * p is below the timeout |
| JobClient.FetchIsMonotone | src/client.cpp:124-139 | a longer timeout never loses a result that a shorter one fetched |
| JobClient.FetchIffInTime | src/client.cpp:124-139 | against a server whose completion is permanent, the result is fetched if and only if the job completes no later than the last poll below the timeout |
| JobClient.FirstLostTimeout | src/client.cpp:108-113 | a timeout of 2^31 seconds allows no poll instead of 2^30 |
| JobClient.NarrowedTimeout | src/client.cpp:108-113 | a size_t timeout counts in full if and only if it is below 2^31 |
| EndToEnd.CouplingEndToEnd | src/c_bindings/resource.cpp:69 | print, parse and flatten: an array of length 2n with the i-th pair at 2i and 2i + 1 |
| EndToEnd.GateEndToEnd | src/c_bindings/resource.cpp:118 | print, parse, flatten and cut by the gate's qubit number: the tuples come back if and only if all have that width |
| EndToEnd.CountsEndToEnd | src/c_bindings/job.cpp:49-103 | results sent as JSON arrive in the counts array in order, and no shot is lost |

## Left out

- Connection setup, login, channels, host names and random identifiers: I/O over unseen libraries; names are parameters.
- HpcClient.MQSSHPCClient.constructor: does not model the throw when the connection fails, which leaves no client.
- HpcClient.MQSSHPCClient.Get: a publish that fails is ignored by the code, which then blocks; the model assumes that it goes through.
- HpcClient.MQSSHPCClient.Post: likewise.
- HpcClient.RabbitMQClient.SendTo: only for the listener queue, the only one it is called with.
- HpcClient.RabbitMQClient.Receive: only for the client's own response queue, the only one it is called with, and without the error text of a failed receive; what that failure does is in `ProtocolFailures`.
- libcurl itself, headers, HTTP status handling and the failure of `curl_url()`: I/O and allocation inside an unseen library.
- JSON text: parsing is an arbitrary function from text to documents, and floating-point counts have no model.
- Resource(const json&), getAllResources, getResourceInfo, submitJob, cancelJob, getNumberPendingJobs, toJson, getters and setters: single look-ups that would add only easy members.
- Stack limits of std::regex on long texts.
- Timestamp.ParseTimestamp: only stamps laid out as `YYYY-MM-DD HH:MM:SS` with an optional fraction, years 1970 to 9999, fixed zone offset, and a clock that holds the microseconds (one of 64-bit nanoseconds does until 2262); malformed texts leave `std::get_time` in states that the model does not follow, and daylight saving has no model.
- The three time stamp getters: they only turn a throw into a code.
- Exceptions from operator new: the cleanup code covers only the C allocators.
- JobClient.MQSSClient.WaitForJobResult: requires a positive poll period; the only caller passes two, and the loop would not end for a period of zero.
- Overflow of the sizes passed to malloc: the entries are already in memory.
- Python bindings, opaque handle casts: registration and layout, no logic.
