# Verified model of the Mujin controller client

A Dafny model of the parts of the controller client library that carry state machines, recursion or
string algorithms, with proofs of what they promise. `dafny verify dfyconfig.toml` checks everything.

- **Subscription.dfy** models the GraphQL subscription socket: a table of callbacks behind a mutex, shared
  by `StartSubscription`, `StopSubscription`, `StopAllSubscriptions` and a read loop that re-arms itself.
  Each critical section is one step; a run is any sequence of enabled steps of callers, background thread
  and peer. The class's methods are proved to take exactly these steps, and the theorems hold of every run.
- **ControllerClient.dfy** models the client above it, which shares one socket through a weak pointer and
  replaces it after `SetProxy` or `SetUnixEndpoint`. Every socket carries the run of steps it went through,
  so the subscription theorems hold of each.
- **ReqRep.dfy** models `ZmqClient::Call` over a REQ socket as the ZeroMQ specification 28/REQREP describes
  it (section "The REQ Socket Type"): strict alternation, a send while a reply is awaited fails, only an
  awaiting socket becomes readable, and only with the reply to its own request.
- **Json.dfy**, **Merge.dfy**, **TypedJson.dfy** model JSON values with rapidjson's order-insensitive
  equality, the in-place recursive merge, and the typed load/save overloads as functions and methods over a
  deep embedding of the C++ types.
- **Exchange.dfy**, **Verbatim.dfy**, **Conversions.dfy** say the same without the recursion of those models:
  how a call ends, by the answers of the socket; which JSON values a merge stores; what each type loads,
  converts and refuses.
- **Url.dfy** models the URL parser, the URL printer and the second host parser of the bin-picking
  resource (RFC 3986 section 3.2).
- **Text.dfy**, **Replace.dfy**, **ItlProgram.dfy**, **Timestamps.dfy**, **WebPath.dfy** model the string
  algorithms: longest-match replacement, the escaping of ITL programs (read back as RFC 8259 section 7
  says), dots in timestamps, percent-encoding (RFC 3986 sections 2.1 and 2.3), and the MKCOL requests for a
  path (RFC 4918 section 9.3).
- **JsonFile.dfy**, **Heartbeat.dfy** model the file-reading loops and the digit loop over slave request ids.

Objects the code updates in place are classes, its loops are loops, and every such method is proved against
a function or a declarative predicate. What the surroundings do (a write that fails, a short read, the
order in which an unordered map is walked, time passing) is a parameter, and theorems hold for all of it.

## Where the code does not do what it is for

Each of these is proved: the failing input, or the exact condition under which the property holds.

- `http://admin@host:80` is documented as a URL of the client but makes the parser throw
  `std::length_error`: a user name without a password works only if no `:` follows the `@`, not even in the path
  (`Url.UserWithPortFails`, `Url.ParsesComposed`).
- A base URI that ends at `://`, or that has a NUL in its host, gives the two URL parsers different hosts,
  and so does a URI with user information, unless it has a password and the user name happens to be the
  host (`Url.HostsAgree`, `Url.BareSchemeIsHost`, `Url.BinPickingTakesTheUser`).
- A path with an empty segment, such as `a//b`, is encoded so that it decodes to a longer path
  (`WebPath.EncodedPathIsLonger`), and yields directory names that hold an encoded slash
  (`WebPath.DirectoriesAreNames`), because `startindex` stays behind (`WebPath.EmptySegmentFails`).
- A call with timeout 0, commented as "infinite", never sends its request, and returns a stale reply if the
  socket still awaits one (`ReqRep.CallKeeps`, `ReqRep.StaleReply`). Until the first poll returns, the
  receive loop ignores the timeout (`ReqRep.NoBoundBeforePoll`).
- Two subscription sockets can be open at once: a subscription that finds the cached socket open but no
  longer held by any handle connects a second one (`ControllerClient.TwoSocketsOpen`,
  `ControllerClient.OneOpenUnlessCrowded`).
- A socket whose destructor is still to run stays open over SetProxy and SetUnixEndpoint
  (`ControllerClient.EndpointLeavesOneOpen`, `ControllerClient.EndpointInRun`).
- A callback whose start message threw on a reused socket stays in its table for ever; it has no handle, and
  so nothing can stop it (`ControllerClient.CallbackLeftBehind`, `ControllerClient.TableIsHeld`,
  `ControllerClient.LeftBehindForGood`).
- An update with a NaN in it reports a change every time it is applied (`Merge.NaNAlwaysChanges`,
  `Merge.SecondUpdateChangesNothing`).
- A second timestamp key before the same comma or brace gets no dot of its own
  (`Timestamps.SecondKeyStaysUndotted`, `Timestamps.AllKeysDottedIff`).
- A file whose reported size exceeds the memory leaves its descriptor open (`JsonFile.SparseFileLeaks`,
  `JsonFile.ParseJsonFile`).
- After a call that could not make a new socket no later one makes any, and each that has time to send or
  gets to poll uses a null pointer (`ReqRep.NullSocketUsed`, `ReqRep.NullSocketForGood`).
- The recursive merge is not associative where a non-object stands between objects
  (`Merge.UpdateDoesNotAlwaysAssociate`, `Merge.UpdateAssociates`).
- An optional that directly holds an empty optional, and a string with a NUL, do not survive saving and
  loading (`TypedJson.LoadAfterSave`, `TypedJson.EmptyOptionalLost`).
- An ITL program with a backslash, or a control character other than LF and CRLF, is not what the
  controller reads (`ItlProgram.ReadsBack`).
- A slave request id with ten digits or more at its end overflows an `int` (`Heartbeat.SuffixOf`).

## Model

| member | source | states |
|---|---|---|
| Subscription.CallsAreOwed | src/controllerclientimpl.cpp:2187-2276 | In every run the calls made for a subscription are exactly, in order, its callback's reaction to each step taken while it was registered: one payload call per usable message for its id (not pong or ka, errors winning over data), one notice per read error or shutdown, nothing else |
| Subscription.MessageCalls | src/controllerclientimpl.cpp:2210-2263 | In every run a message with a type other than pong and ka for a registered callback makes one call: with the payload's errors and no data if they are an array, whatever its data are; else with its data if they are an object; none otherwise; nothing else changes |
| Subscription.OtherMessagesDoNothing | src/controllerclientimpl.cpp:2211-2269 | Every other message changes nothing: unparseable, without a type, pong or ka, without an id, or for an id without a callback |
| Subscription.EndCallsEveryCallback | src/controllerclientimpl.cpp:2195-2205 | In every run StopAllSubscriptions and a failed read call every callback of the table once, with an array of one object whose message is the reason, and keep the table; StopAllSubscriptions closes the stream |
| Subscription.OtherStepsCallNobody | src/controllerclientimpl.cpp:2378-2438 | No start, no stop and no loss of the stream calls anybody |
| Subscription.TableHoldsRegistered | src/controllerclientimpl.cpp:2410-2433 | In every run the table holds an id with a callback exactly when some start gave that callback and no stop came since |
| Subscription.NoCallAfterStop | src/controllerclientimpl.cpp:2419-2433 | Once a started subscription was stopped, no later step of the run calls its callback again, not even with a notice |
| Subscription.OneStartOneStop | src/controllerclientimpl.cpp:2411-2433 | In every run the messages about an id are nothing, its start, or its start followed by one stop; while the stream is open exactly those of the starts and stops that took place |
| Subscription.InitializedFirst | src/controllerclientimpl.cpp:2338-2365 | In every run the first message is the connection initialization, and it is sent once |
| Subscription.StartMessageIsOwn | src/controllerclientimpl.cpp:2386-2414 | The start message about an id carries the operation, query (both cut at a NUL) and variables that subscription was started with |
| Subscription.OneReadOutstanding | src/controllerclientimpl.cpp:2189-2275 | In every run exactly one asynchronous read is outstanding until the first read error, none after it |
| Subscription.NothingBehindReadError | src/controllerclientimpl.cpp:2193-2206 | No message arrives and no read fails behind a read error |
| Subscription.NeverReopens | src/controllerclientimpl.cpp:2492-2499 | Once the stream is closed it stays closed and nothing more is sent |
| Subscription.GraphSubscriptionWebSocketHandler.constructor | src/controllerclientimpl.cpp:2338-2365 | After a handshake that succeeded: no callbacks, an open stream, the initialization sent, one read started |
| Subscription.GraphSubscriptionWebSocketHandler.SendMessage | src/controllerclientimpl.cpp:2492-2499 | Hands the message to an open stream and throws exactly when that write fails; does nothing on a closed one |
| Subscription.GraphSubscriptionWebSocketHandler.StartSubscription | src/controllerclientimpl.cpp:2378-2417 | Takes the start step: the callback is in the table before the start message goes out and stays there when the write throws; the id is returned unless it threw |
| Subscription.GraphSubscriptionWebSocketHandler.StopSubscription | src/controllerclientimpl.cpp:2419-2438 | Takes the stop step: an unknown id changes nothing; otherwise the callback is erased, and a failing stop message is swallowed |
| Subscription.GraphSubscriptionWebSocketHandler.StopAllSubscriptions | src/controllerclientimpl.cpp:2440-2468 | Closes the stream and notifies every callable callback once, in some order of the table, which keeps its entries |
| Subscription.GraphSubscriptionWebSocketHandler.NotifyAll | src/controllerclientimpl.cpp:2195-2205 | The walk over the table makes exactly one notice per callable entry |
| Subscription.GraphSubscriptionWebSocketHandler.OnReadError | src/controllerclientimpl.cpp:2193-2206 | Takes the read-error step: every callable callback is notified and no further read is started |
| Subscription.GraphSubscriptionWebSocketHandler.OnMessage | src/controllerclientimpl.cpp:2208-2275 | Takes the message step on every path through the handler, with the next read started on each; what that step calls is Subscription.MessageCalls |
| Subscription.GraphSubscriptionWebSocketHandler.MessageId | src/controllerclientimpl.cpp:2211-2244 | Finds the id of a message exactly when it parses to an object with a string type other than pong and ka and a string id |
| Subscription.GraphSubscriptionWebSocketHandler.Invoke | src/controllerclientimpl.cpp:2250-2263 | Makes the call of the message step; Subscription.MessageCalls says what it hands over, errors before data |
| ControllerClient.HeldAndOpenIsCached | src/controllerclientimpl.cpp:504-517 | In every reachable client state a socket that a handle holds and that is open is the cached one, a destroyed socket is closed, and every socket's history is a run of the subscription model |
| ControllerClient.OneOpenUnlessCrowded | src/controllerclientimpl.cpp:504-517 | A step keeps the cached socket the only open one exactly unless it is a subscription that connects anew, and whose start does not throw, while the cached socket is open but held by no handle |
| ControllerClient.OneOpenInUncrowdedRun | src/controllerclientimpl.cpp:504-517 | In every run without such a step at most one socket is open, the cached one |
| ControllerClient.OnlyCachedIsOpenIff | src/controllerclientimpl.cpp:2470-2490 | In every reachable state the cached socket is the only open one exactly when no other open socket awaits its destructor |
| ControllerClient.TwoSocketsOpen | src/controllerclientimpl.cpp:2170-2174 | A run that ends with two sockets open: a new subscription comes between the last handle letting go and the destructor |
| ControllerClient.EndpointClosesHeldSockets | src/controllerclientimpl.cpp:363-395 | After SetProxy or SetUnixEndpoint the only open sockets are those that await their destructors, and none is reused |
| ControllerClient.EndpointClosesAllIff | src/controllerclientimpl.cpp:363-395 | In every state that keeps the invariant, a call of SetProxy or SetUnixEndpoint leaves no socket open exactly when, before it, every socket that awaits its destructor is closed |
| ControllerClient.EndpointInRun | src/controllerclientimpl.cpp:363-395 | The same of the last step of every run |
| ControllerClient.EndpointLeavesOneOpen | src/controllerclientimpl.cpp:2470-2490 | A run that ends in SetProxy or SetUnixEndpoint with a socket open: its last handle was dropped before, and its destructor has not come to close it |
| ControllerClient.EndpointIsHeard | src/controllerclientimpl.cpp:371-377 | In every run SetProxy and SetUnixEndpoint call every callback of the reusable socket once, with one error that says the stream was closed, and nobody else; without a reusable socket they change nothing |
| ControllerClient.DestructorIsHeard | src/controllerclientimpl.cpp:2470-2473 | The destructor of a socket does the same to every callback still in its table |
| ControllerClient.FailedStartIsHeard | src/controllerclientimpl.cpp:508-514 | When the start message of a subscription cannot be sent on a socket connected for it, its callback is told that the socket is closed, and the cache stays |
| ControllerClient.SubscriptionIsStarted | src/controllerclientimpl.cpp:504-517 | In every run a successful subscription puts its callback into the table of the socket it reuses or connects, hands that socket its start message if it is open, holds it, and makes it the cached one; the other sockets stay as they are |
| ControllerClient.SubscriptionFails | src/controllerclientimpl.cpp:504-514 | One that cannot connect changes nothing; one whose start message cannot be sent on a reused socket leaves its callback there and neither a handle nor a socket |
| ControllerClient.HandleStops | src/controllerclientimpl.cpp:2170-2174 | Letting go of a handle takes its callback out of the table without calling it, and hands the stop message to a socket that is open |
| ControllerClient.EndpointsDoNotShareSockets | src/controllerclientimpl.cpp:363-395 | Whatever happens after SetProxy or SetUnixEndpoint, no socket of before gets a subscription or a handle more |
| ControllerClient.DestructedIsSilent | src/controllerclientimpl.cpp:2470-2490 | Once the destructor of a socket has closed it and joined the background thread, no later step of any run calls one of its callbacks |
| ControllerClient.TableIsHeld | src/controllerclientimpl.cpp:2410-2414 | In every reachable state each id in a socket's table has a handle that will stop it exactly unless its start message threw |
| ControllerClient.LeftBehindForGood | src/controllerclientimpl.cpp:2410-2433 | An id in the table whose start message threw stays there in every continuation of the run |
| ControllerClient.CallbackLeftBehind | src/controllerclientimpl.cpp:504-517 | Two subscriptions on one socket, the write of the second failing: its callback is in the table of the open socket and has no handle |
| ControllerClient.CallsOnEverySocket | src/controllerclientimpl.cpp:504-517 | On every socket of every client run each subscription gets the calls it is owed, and its messages are a start and then a stop at most |
| ControllerClient.ControllerClientImpl.LockOpen | src/controllerclientimpl.cpp:507-508 | Finds the cached socket reusable exactly when something holds it and it is open |
| ControllerClient.ControllerClientImpl.ExecuteGraphSubscription | src/controllerclientimpl.cpp:504-517 | Takes the execute step: reuse or connect, start, then cache; on success the new handle holds the cached socket, on failure the cache is unchanged and a fresh socket is closed |
| ControllerClient.ControllerClientImpl.StopExistingSubscriptions | src/controllerclientimpl.cpp:371-377 | Takes the endpoint step: closes the cached socket, telling its callbacks (ControllerClient.EndpointIsHeard), and forgets it if it is held and open; does nothing otherwise |
| ReqRep.RepliesAreOwn | src/mujinzmq.cpp:242-393 | Over every sequence of calls, a returned reply is the reply to the call's own request exactly when the call's send was accepted, that is exactly when its first guard found time left; otherwise it answers an earlier accepted request |
| ReqRep.RepliesOnce | src/mujinzmq.cpp:303-379 | Over every sequence of calls no reply is returned twice |
| ReqRep.AwaitedReply | src/mujinzmq.cpp:250-290 | The reply a socket awaits between calls is that to an earlier accepted request, and no call has returned it |
| ReqRep.StaleReply | src/mujinzmq.cpp:252-291 | Two calls, the second with timeout 0, after which the second has returned the reply to the first |
| ReqRep.CallKeeps | src/mujinzmq.cpp:242-393 | One call sends its request successfully at most once; a reply returned after any send attempt is its own and leaves the socket idle |
| ReqRep.OutcomesMean | src/mujinzmq.cpp:266-392 | A failed send or receive comes only after the socket was replaced once, the final empty string only when the call ends exactly at the timeout and the timeout errors behind the loops only later, a call that replaced its socket while receiving never returns a reply, and a null socket is used only by a call that found none |
| ReqRep.NullSocketIff | src/mujinzmq.cpp:252-329 | A call that finds no socket uses the null pointer exactly when it has time to send, or time is not over behind the first loop and the preemption check lets it poll; it makes no socket either way |
| ReqRep.NullSocketForGood | src/mujinzmq.cpp:395-415 | Once a call leaves no socket, every later call of every sequence finds none, and uses the null pointer exactly then |
| ReqRep.NullSocketUsed | src/mujinzmq.cpp:276-283 | Two calls, the first unable to replace its socket after a refused send, the second any call with time left, which uses the null pointer |
| ReqRep.CallIsBounded | src/mujinzmq.cpp:252-379 | Every call with timeout T ms makes at most ceil(T/100)+1 send attempts and, once one poll has returned, ceil(T/100)+1 further receive iterations, and replaces the socket at most once per loop |
| ReqRep.NoBoundBeforePoll | src/mujinzmq.cpp:306-356 | While poll reports EAGAIN and none has returned, the receive loop goes on for any number of iterations and any time |
| Exchange.SendEnds | src/mujinzmq.cpp:250-290 | The try that ends the send loop decides how: the loop is left when time is over, when the message is accepted, or when send returns without sending; an exception comes only from a second refusal, a socket that cannot be replaced, or the preemption check; EAGAIN never ends it |
| Exchange.GivesUpOnlyInTime | src/mujinzmq.cpp:252-290 | Unless send returns without sending, the send loop is left without the message being accepted only when time is over |
| Exchange.ReceiveEnds | src/mujinzmq.cpp:303-379 | The iteration that ends the receive loop decides how: time (once a poll has returned), the preemption check, the reply, an empty or missing reply, or an error that cannot be mended; EAGAIN from poll or recv never ends it |
| Exchange.AcceptedCall | src/mujinzmq.cpp:242-393 | A call whose message is accepted at try n made n + 1 tries and one accepted send, and ends as its receive loop does, with the two timeout errors and the empty string told apart by the time |
| Exchange.UnsentCall | src/mujinzmq.cpp:252-393 | A call that leaves the send loop without sending waits for the reply to an earlier request, and ends so |
| Exchange.StoppedCall | src/mujinzmq.cpp:276-288 | A call that an exception ends while it sends ends as the answer of its last try says |
| Exchange.EveryCallEnds | src/mujinzmq.cpp:242-393 | Every call with a socket is of one of these three kinds |
| Exchange.RepliesIff | src/mujinzmq.cpp:242-393 | A call returns the reply to its own request exactly when some try is accepted in time, after any number of EAGAIN and at most one replaced socket, and some later iteration gets the reply, after any number of EAGAIN while time is left |
| Exchange.EagainIsPatient | src/mujinzmq.cpp:257-356 | On an idle socket any number of EAGAIN from send, then a send that is accepted, any number of EAGAIN from poll and recv, then a reply, all in time and without preemption, give the caller the reply |
| ReqRep.ZmqClient.Call | src/mujinzmq.cpp:242-393 | The two loops with their checks end as the specification says, for every behaviour of socket, clock, preemption check and socket replacement, which may throw; Exchange.RepliesIff and the lemmas before it say how, answer by answer |
| ReqRep.ZmqClient.InitializeSocket | src/mujinzmq.cpp:395-415 | Leaves an idle socket, also when it throws because the socket does not connect, and no socket when none can be made |
| ReqRep.ZmqClient.SendLoop | src/mujinzmq.cpp:250-290 | The send loop equals its specification, socket included, whose end Exchange.SendEnds tells from the answers |
| ReqRep.ZmqClient.ReceiveLoop | src/mujinzmq.cpp:303-379 | The receive loop equals its specification, socket included, whose end Exchange.ReceiveEnds tells from the answers |
| Json.EqualIsSameMeaning | include/mujincontrollerclient/mujinjson.h:1352-1355 | On unique-key documents the equality behind the shortcut holds exactly when both have the same meaning as key-value trees and hold no NaN |
| Merge.UpdateMergesMeaning | include/mujincontrollerclient/mujinjson.h:1351-1378 | On unique-key documents the merge computes the key-wise merge of the trees, keeps keys unique, and reports a change exactly when the meaning changed or the override holds a NaN |
| Verbatim.UpdateStores | include/mujincontrollerclient/mujinjson.h:1351-1378 | On unique-key documents the merge stores, at every shared path: the source's value as it is where both are equal, the override's as it is where one is no object; members only one side has stay as they are, those of the source in place, new ones behind them in the override's order |
| Merge.UpdateKeepsOrder | include/mujincontrollerclient/mujinjson.h:1362-1376 | Existing keys keep their place and new ones are appended in the order of the override |
| Merge.SecondUpdateChangesNothing | include/mujincontrollerclient/mujinjson.h:1347-1378 | Applying the same override again never changes the meaning, and returns false and leaves the document alone exactly when the override holds no NaN |
| Merge.NaNAlwaysChanges | include/mujincontrollerclient/mujinjson.h:178-180 | A document with a NaN, updated with itself, reports a change |
| Merge.UpdateAssociates | include/mujincontrollerclient/mujinjson.h:1351-1378 | Both orders of merging mean the same exactly when no path has a non-object in the middle between objects, unless the last document covers the first there; the code's own equality sees it exactly when, besides, the result holds no NaN, as it never does when the three documents hold none |
| Merge.UpdateDoesNotAlwaysAssociate | include/mujincontrollerclient/mujinjson.h:1357-1360 | Three documents for which it is not |
| Merge.UpdateJsonOverwritesFields | include/mujincontrollerclient/mujinjson.h:1334-1345 | The one-level update has the fields of both objects, the second winning, its names cut at a NUL and the last of equal ones winning; keys stay unique |
| Verbatim.UpdateJsonStores | include/mujincontrollerclient/mujinjson.h:1334-1345 | The one-level update stores every value of the second object as it is under its name cut at a NUL, the last of equal names winning, and keeps every other value and the places of the names that were there |
| Verbatim.UpdateJsonKeepsOrder | include/mujincontrollerclient/mujinjson.h:1278-1288 | New members are appended in the order of the second object |
| Merge.JsonDocument.SetJsonValueByKey | include/mujincontrollerclient/mujinjson.h:1244-1288 | Replaces the member in place or appends it, under the name cut at a NUL; throws exactly on a non-object, which it leaves alone |
| Merge.JsonDocument.UpdateJson | include/mujincontrollerclient/mujinjson.h:1334-1345 | Sets every member of the second object in turn; throws exactly when one of the two is no object |
| Merge.JsonDocument.UpdateJsonRecursively | include/mujincontrollerclient/mujinjson.h:1351-1378 | The in-place loop with its equality shortcut and its flag computes the specified merge, which stores what Verbatim.UpdateStores says |
| TypedJson.LoadAfterSave | include/mujincontrollerclient/mujinjson.h:354-1055 | For every type built from the supported ones, whatever JSON saving produced loads into any target without error, and gives the value back exactly when no string holds a NUL and no optional directly holds an empty optional |
| TypedJson.EmptyOptionalLost | include/mujincontrollerclient/mujinjson.h:738-763 | An optional that holds an empty optional is saved as null, which loads as an empty optional |
| TypedJson.SaveJsonValue | include/mujincontrollerclient/mujinjson.h:780-1055 | Saving produces a JSON value the save relation allows, maps and sets in any order |
| TypedJson.LoadJsonValue | include/mujincontrollerclient/mujinjson.h:354-767 | The loading loops compute the specified load, errors and held targets included; the Conversions lemmas say what it accepts, converts and refuses |
| TypedJson.PairListAdds | include/mujincontrollerclient/mujinjson.h:628-638 | Loading a list of pairs into a map keeps the held entries that no pair names, and neither its outcome nor the pairs' values depend on what was held |
| TypedJson.LoadPairList | include/mujincontrollerclient/mujinjson.h:628-638 | A list of pairs is loaded into the held map without clearing it, with an error for anything but pairs, which leaves exactly the pairs before it in the map |
| Conversions.BoolLoads | include/mujincontrollerclient/mujinjson.h:513-522 | A bool loads from a 32-bit integer as "not zero", from a bool, from a string (up to a NUL) as its cast says, and from nothing else |
| Conversions.IntLoads | include/mujincontrollerclient/mujinjson.h:367-488 | Each integer type takes the numbers of the type it is read through, true and false as 1 and 0, and a string as its cast says, wraps them into its range, loads its own numbers as they are, and refuses everything else |
| Conversions.StringLoads | include/mujincontrollerclient/mujinjson.h:354-364 | A string loads from a string, NULs included, and from a 64-bit number as its cast says |
| Conversions.WrongShapesAreRefused | include/mujincontrollerclient/mujinjson.h:513-767 | Whatever the target holds: vectors, deques, sets and pairs refuse what is no array, arrays and pairs a wrong length, unordered maps what is no object, maps what is neither, and every type but an optional null |
| Conversions.SequencesLoad | include/mujincontrollerclient/mujinjson.h:594-675 | Vectors, deques and arrays load element by element, arrays into what they hold, and fail exactly when an element does |
| Conversions.PairLoads | include/mujincontrollerclient/mujinjson.h:563-574 | A pair loads its two elements in order and fails exactly when one does |
| Conversions.OptionalLoads | include/mujincontrollerclient/mujinjson.h:738-763 | An optional loads null as empty and everything else as its type does |
| Conversions.SetsLoad | include/mujincontrollerclient/mujinjson.h:677-713 | A set is exactly what the elements of the array load as, nothing of what it held, and fails exactly when one does |
| Conversions.ObjectsLoad | include/mujincontrollerclient/mujinjson.h:628-735 | A map loads an object member by member, clearing what it held, later values of a name into earlier ones, and fails exactly when a member does |
| Conversions.PairListsLoad | include/mujincontrollerclient/mujinjson.h:628-638 | A map loads an array of pairs into what it holds, later pairs winning, and fails exactly when an element is no pair of a string and a value |
| Conversions.SavedShape | include/mujincontrollerclient/mujinjson.h:780-1055 | What saving writes: a bool, a number, a string up to a NUL, an array of as many elements, an object of as many members, null for an empty optional |
| Replace.ReplacedIsTheReading | src/common.cpp:23-52 | For every input and all non-empty patterns there is a reading of the input from the left that takes the longest pattern, the earlier pair on ties, and keeps what no pattern matches; the result renders every such reading |
| Replace.AtMostOneToken | src/common.cpp:18-21 | At each position only one token can be read |
| Replace.LongestIsReplaced | src/common.cpp:18-52 | Where patterns begin the text, the longest, and of those as long the earliest pair's, is replaced, and the replacement goes on behind it without searching what it put there |
| Replace.OthersAreKept | src/common.cpp:44-52 | Where no pattern begins the text its first character stays, and the replacement goes on behind it |
| Replace.SearchAndReplace | src/common.cpp:23-52 | The nested loops over the stably sorted pairs compute that replacement, and terminate |
| Replace.EarliestHit | src/common.cpp:36-43 | The inner loop finds the earliest hit and the first sorted pair that has it |
| ItlProgram.EscapedIsReplaced | src/mujincontrollerclient.cpp:1299-1303 | Character-wise escaping is what the three rules make of a program |
| ItlProgram.EscapeProgram | src/mujincontrollerclient.cpp:1297-1303 | The code escapes that way |
| ItlProgram.EscapesOneByOne | src/mujincontrollerclient.cpp:1299-1303 | Character by character: a quotation mark gets a backslash, LF and CRLF become a backslash and an n, everything else stands for itself |
| ItlProgram.ReadsBack | src/mujincontrollerclient.cpp:1297-1303 | Reading the escaped program as a JSON string gives the program with CRLF turned into LF exactly when it holds no backslash and no control character other than LF and CRLF |
| Timestamps.ConvertTimestampToFloat | src/common.cpp:100-134 | The loop appends the piecewise conversion and throws exactly when it is undefined; what was appended before a throw is the conversion of the text up to the last timestamp value that ends |
| Timestamps.NextValue | src/common.cpp:106-124 | Finds the next timestamp value, where it ends and whether it has a dot |
| Timestamps.ConvertedTwice | src/common.cpp:100-134 | Converting an accepted text twice is converting it once |
| Timestamps.ConvertedOnlyInsertsDots | src/common.cpp:121-130 | The output is the input with a dot directly before each comma or closing brace that ends a timestamp value without one, and nothing else changed |
| Timestamps.AcceptedIffEveryValueEnds | src/common.cpp:112-120 | A text is accepted exactly when every timestamp key is followed by a comma or closing brace |
| Timestamps.OutputIsDotted | src/common.cpp:121-130 | In the output of every accepted text each recognised timestamp value (the first key between two terminators) has a dot before its terminator |
| Timestamps.AllKeysDottedIff | src/common.cpp:106-131 | Every timestamp key of the output has a dot behind it exactly when no piece of the input has one behind its first key but none behind a later key |
| Timestamps.SecondKeyStaysUndotted | src/common.cpp:106-131 | A text with two keys in one piece that the conversion leaves as it is, the second value without a dot |
| Timestamps.ValueGetsDot | src/common.cpp:104-131 | A value behind the first "timestamp": of a piece gets a dot directly before the comma or closing brace that ends the piece, unless it holds one, and the conversion goes on behind |
| Timestamps.NoKeyUnchanged | src/common.cpp:106-110 | A text without "timestamp": is left as it is |
| Url.ParsesComposed | src/controllerclientimpl.cpp:60-105 | Parsing any URL made of well-formed parts gives the parts back, whatever the path holds, except that a user name without a password throws exactly when a `:` follows the `@` before any NUL |
| Url.UserPortThrows | src/controllerclientimpl.cpp:74-81 | Every well-formed URL with a user name, no password and a port makes the parser throw |
| Url.UserWithPortFails | src/controllerclientimpl.cpp:59-81 | The documented form http://admin@host:80 throws |
| Url.UrlRoundTrips | src/mujincontrollerclient.cpp:128-154 | Parsing what GetURL printed, with any path appended, gives host, port and included credentials back exactly when they are free of the delimiters and of NUL |
| Url.PrintedInOrder | src/mujincontrollerclient.cpp:128-154 | The URL is `http://`, user name, colon, password and at sign if asked for, the host or its address, and a colon and the port unless it is 0; nothing without a host |
| Url.DecimalReadsBack | src/controllerclientimpl.cpp:50-57 | Every 16-bit port reads back from its decimal digits |
| Url.DecimalIsCanonical | src/mujincontrollerclient.cpp:149-152 | The printed port has decimal digits only, and no 0 in front |
| Url.PortByBytes | src/controllerclientimpl.cpp:50-57 | Each byte of a port counts modulo 65536, digit or not, bytes from 128 on as negative numbers |
| Url.NoSchemeGivesNothing | src/controllerclientimpl.cpp:62-66 | A text without `://` before its first NUL parses to empty fields |
| Url.HostsAgree | src/binpickingtask.cpp:283-308 | Without user information the two parsers find the same host exactly when something other than a NUL stands behind `://` and no NUL stands before the end of the host (or the host is empty), or else the scheme is empty or begins with a slash |
| Url.BareSchemeIsHost | src/binpickingtask.cpp:283-308 | On a base URI that ends at `://` the client finds no host and the second parser takes the scheme for it |
| Url.BinPickingTakesTheUser | src/binpickingtask.cpp:303-308 | With credentials the second parser takes the user name for the host, with a user name alone `user@host` |
| Url.MujinControllerIp | src/binpickingtask.cpp:283-308 | The iterator code computes the second parser's host |
| Url.EnsureSlash | src/controllerclientimpl.cpp:186-190 | The base URI kept is the given one, with one slash appended unless it ends in a slash |
| Url.ControllerClientInfo.Reset | src/mujincontrollerclient.cpp:36-44 | Clears every field but the user agent |
| Url.ControllerClientInfo.ParseClientInfoPort | src/controllerclientimpl.cpp:50-57 | The digit loop computes the port modulo 65536 |
| Url.ControllerClientInfo.UserPasswordFrom | src/controllerclientimpl.cpp:68-84 | Stores the credentials before the host, and throws exactly when the first `:` stands behind the `@` |
| Url.ControllerClientInfo.HostAndPortFrom | src/controllerclientimpl.cpp:85-104 | The four branches store host and port |
| Url.ControllerClientInfo.ParseClientInfoFromURL | src/controllerclientimpl.cpp:60-105 | Reads the URL up to its first NUL and leaves exactly the parsed fields, everything else cleared; when it throws, only the user name has been stored |
| Url.ControllerClientInfo.ParseFields | src/controllerclientimpl.cpp:62-104 | The same for a text without NUL |
| Url.ControllerClientInfo.GetURL | src/mujincontrollerclient.cpp:128-154 | Prints the URL of the fields, with the host replaced by its unique address if asked for |
| WebPath.EscapeRoundTrips | src/controllerclientimpl.h:190-203 | Unescaping an escaped string gives it back, whatever its bytes, so a name is recovered from its primary key |
| WebPath.EscapedBytes | src/controllerclientimpl.h:190-195 | An escaped string holds only unreserved characters and percent signs, so no slash |
| WebPath.EscapedByte | src/controllerclientimpl.h:190-195 | Letters, digits, hyphen, period, underscore and tilde stand for themselves; every other byte becomes a percent sign and its two upper-case hexadecimal digits |
| WebPath.EscapedInParts | src/controllerclientimpl.h:190-195 | The parts of a string are escaped one by one |
| WebPath.ScenePrimaryKeys | src/controllerclientimpl.cpp:1087-1094 | A scene URI is refused exactly when it holds no `:/`; any other gives a key that decodes to what follows the first one |
| WebPath.EncodedPathRoundTrips | src/controllerclientimpl.cpp:1264-1281 | The encoded path decodes to the path exactly when no slash begins it or follows another |
| WebPath.EncodedPathIsLonger | src/controllerclientimpl.cpp:1264-1281 | The encoded path decodes to a path longer by one byte for each piece that begins with a slash, and there is such a piece exactly when a segment is empty |
| WebPath.EmptySegmentFails | src/controllerclientimpl.cpp:1264-1303 | The path `a//b` decodes to `a///b`, and is cut into `a` and `/b`, whatever the letters |
| WebPath.UnescapeEncodedPath | src/controllerclientimpl.cpp:1264-1281 | What any encoded path decodes to: the path with a second slash before every piece cut with `startindex` left behind |
| WebPath.EncodedPathSegments | src/controllerclientimpl.cpp:1264-1281 | The encoded path splits at its slashes into the escaped segments exactly when no segment is empty, a trailing one excepted |
| WebPath.EncodeWithoutSeparator | src/controllerclientimpl.cpp:1264-1281 | The loop computes the encoded path, `startindex` staying behind on an empty segment |
| WebPath.DirectoriesAreSegments | src/controllerclientimpl.cpp:1291-1303 | The directory loop yields the escaped names on the path exactly when no segment is empty, and then they join to the encoded path |
| WebPath.DirectoriesAreNames | src/controllerclientimpl.cpp:1291-1303 | No directory name holds an encoded slash exactly when no segment of the path is empty |
| WebPath.AncestorsFirst | src/controllerclientimpl.cpp:1309-1317 | Every MKCOL request names an ancestor of every later one, and the last names the whole path |
| WebPath.RequestedPathDecodes | src/controllerclientimpl.cpp:1309-1317 | The k-th requested path decodes to the first k names of the path |
| WebPath.WebDavClient.ListDirectories | src/controllerclientimpl.cpp:1291-1303 | The loop lists the directories of the path |
| WebPath.WebDavClient.MakeDirectories | src/controllerclientimpl.cpp:1309-1344 | The requests name the directories from the outermost on, and stop behind the first answer other than 201 or 301 |
| WebPath.RequestsGoOn | src/controllerclientimpl.cpp:1309-1344 | All requests go out exactly when every answer is 201 or 301; otherwise the first other answer is the last and the call throws |
| WebPath.WebDavClient.EnsureWebDAVDirectories | src/controllerclientimpl.cpp:1283-1345 | Both together; an empty path sends nothing |
| JsonFile.ParseJsonFile | src/mujinjson.cpp:10-107 | For every pattern of short and interrupted reads the parser gets the whole content (up to the reported size, if that is not 0), an empty file throws, a read error is reported at exactly the first read that fails, and the descriptor is closed exactly unless the buffer cannot be made as long as the reported size |
| JsonFile.SparseFileLeaks | src/mujinjson.cpp:85 | A file longer than the longest block the allocator gives makes the resize throw, which leaves the descriptor open |
| JsonFile.ReadGrowing | src/mujinjson.cpp:27-83 | The growing buffer holds exactly the bytes read in order, every read asks for at least 4096 and fewer than 8192 bytes inside the allocation, and memory runs out exactly at the first block, a multiple of 4096 needed for what was read, that is refused |
| JsonFile.ReadSized | src/mujinjson.cpp:85-106 | The sized buffer holds exactly the bytes read in order; if it cannot be made, the descriptor stays open |
| JsonFile.FileDescriptor.Read | src/mujinjson.cpp:51 | read(2): the next bytes of the file in order, a zero count exactly at end of file, nothing changed when it fails |
| JsonFile.Reallocate | src/mujinjson.cpp:42 | The longer block begins with the old bytes |
| Heartbeat.FindSmallestSlaveRequestId | src/binpickingtask.cpp:2031-2075 | Returns the first eligible key with the smallest number, throws exactly when none is eligible, and overflows exactly when an eligible key ends in more than nine digits |
| Heartbeat.SuffixOf | src/binpickingtask.cpp:2059-2063 | The digit loop computes the decimal value of the maximal trailing digit run, without overflow exactly up to nine digits |
| Heartbeat.OneIsSmallest | src/binpickingtask.cpp:2065-2068 | There is only one such key position |
| Heartbeat.SlaveKey | src/binpickingtask.cpp:2048-2063 | A key made of slaverequestid-, a host name, _slave and a number n is eligible, has number n, and overflows exactly from n = 1000000000 on |
| Heartbeat.OtherKeys | src/binpickingtask.cpp:2037-2057 | Keys with another beginning, without an underscore, or without a digit at the end are passed over |
| Heartbeat.KeysOfHeartbeat | src/binpickingtask.cpp:2034-2042 | The keys are the names in the member slavestates, in order, up to a NUL |
| Heartbeat.SlaveRequestId | src/binpickingtask.cpp:2103-2110 | The result with the prefix put back is that key |

## Left out

- Json.EqualIsSameMeaning: rapidjson compares two integers by their 64 bits, so -1 equals 18446744073709551615, and rounds an integer compared with a double; the model compares numbers by exact value.
- Merge.JsonDocument.UpdateJsonRecursively: members are taken out, merged and put back, so the model does not capture references into the document held by others, nor the allocator.
- TypedJson.LoadJsonValue: the target is a value passed in and returned, not a reference, and except for lists of pairs a failed load does not say what the target then holds; lexical_cast enters as arbitrary functions; float, double and classes with their own load and save functions are not modelled.
- Url.ControllerClientInfo.GetURL: the address lookup is a parameter.
- Heartbeat.FindSmallestSlaveRequestId: the heartbeat is a parsed document whose slave states, if present, are an object, as rapidjson's assertion demands.
- Subscription.GraphSubscriptionWebSocketHandler.constructor: a connection or handshake that fails is an exception and leaves no object; the client model has it as a subscription that does not connect.
- Subscription.GraphSubscriptionWebSocketHandler.StopAllSubscriptions: callbacks that throw, and callbacks that call back into the socket while its mutex is held, are not modelled; ids are fresh, as random UUIDs are.
- ReqRep.ZmqClient.Call: messages are identified by the number of the call, not by their bytes. The library's own zmq.hpp never throws EAGAIN from send; the model keeps that path.
- WebPath.WebDavClient.EnsureWebDAVDirectories: the curl options it sets and restores are not modelled.
- Strings in Url, Replace, Timestamps, JsonFile stand for byte strings, one character a byte; UTF-8 and UTF-16 conversions are not modelled.
- HTTP requests, uploads and downloads, directory walking, backup and upgrade: the behaviour lies in the server and in curl.
- TLS, the websocket handshake and its authentication header, Boost.Beast and Asio beyond "message arrived, read failed, stream closed".
- rapidjson's lexer and printer.
- The bin-picking commands and result parsers: long field lists without an invariant.
- Enum, string and error-code tables, the matrix helpers, the heartbeat thread, the Windows code paths.
