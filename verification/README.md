# A verified model of a mediasoup room client

The room client joins a mediasoup conference over a websocket, rewrites session descriptions for
simulcast, maps JSON messages to C++ objects, keeps track of requests, participants and consumers,
and feeds an H.264 file to the encoder. This project models the parts of it that have logic of
their own, and proves what they guarantee over all inputs and all runs. Check it with
`dafny verify dfyconfig.toml`.

| files | part of the client |
|---|---|
| `SdpText`, `SdpParse`, `SdpScan`, `SdpFinds`, `SdpInject`, `SdpLaws`, `SdpSession` | simulcast injection into an SDP (`core/utils/sdp_utils.cpp`) |
| `JsonModel`, `JsonLoops`, `JsonMeaning`, `JsonLaws`, `JsonMessages` | the JSON object mapping (`core/json/serialization.hpp`) |
| `Signaling`, `SignalingLaws`, `SignalingClient` | requests, replies and closes (`core/service/signaling_client.cpp`, `core/websocket/websocket_request.h`, `core/service/mediasoup_api.h`) |
| `Dispatch` | incoming messages, tying the mapping to the request table |
| `Promises` | the calls that block on a reply (`core/service/room_client.cpp`) |
| `Responses`, `Handshake`, `HandshakeCalls` | the join handshake (`core/service/room_client.cpp`), alone and driven by the request table |
| `AnnexBReader`, `AnnexBLaws` | the byte-stream reader (`test/reader.cpp`) |
| `TextReplace` | search and replacement (`core/json/string_algo.hpp`) |
| `Participants` | participants and their notifications (`core/service/participant_controller.cpp`) |
| `MediaMute` | consumers and muting by peer (`core/service/media_controller.cpp`) |
| `Basics` | `Option` and joining of strings |

Code that updates things step by step is modelled by classes and loops, each proved against a
function; the laws are proved about these functions. Concurrency is modelled by step systems whose
schedules are arbitrary sequences of steps. Random SSRC draws, the bytes of the file, replies, the
media library's results and the iteration order of unordered maps are parameters.

## What the code turns out to do

- The simulcast block goes before the *last line* of the video section, not after it, unless the
  section ends the list.
- Injection is idempotent exactly when the splice does not land on an m-line. That can happen only
  with two m=video lines, the later of which opens an empty section
  (`SdpLaws.SecondInjectionCanFire`). On texts there is one more condition: splitting loses a final
  line end, so a text that ends in two of them loses one with every call, unless a block is put
  after them (`SdpSession.TextIdempotent`).
- With two m=video lines the splice can be in another section than the SSRC it extends. If the SSRC
  comes after the splice, a rescan finds the first drawn SSRC instead of the original one
  (`SdpLaws.RescanFinds`, `SdpLaws.RescanCanDiffer`).
- String values are cut at the first NUL on reading; keys of maps are not. An optional that is
  absent from the tree keeps what the target held. The round trip holds exactly outside these two
  cases. Readers of native members, vectors and maps look a member up without asking whether the
  tree is an object; the model has an error of its own for the failed assertion.
- A reply that arrives between transmission and registration of its request is lost; the timeout
  handler rejects nothing; request keys are 32-bit and collide modulo 2^32; a request of key -1 is
  never resolved.
- `!response->ok` tests whether the flag is present, not whether it is true. A response whose `ok` is
  missing or null stops the handshake for good; one with `ok: false` and the data that its request
  needs carries it on, up to a room that connects on refusals alone (`Handshake.MessagePostsIff`,
  `Handshake.RefusalsConnect`, with `Responses.RefusalExists` for the messages).
- A transport response is used without asking for its parts: if its data lacks the ICE parameters,
  ICE candidates, DTLS parameters or SCTP parameters, an empty optional is dereferenced
  (`Handshake.TransportInstalledIff`).
- A connection that opens a second time makes the client ask for the capabilities again, outside the
  plan of the handshake (`Handshake.ReopeningLeavesThePlan`).
- `_onConnect`, `_onProduce` and `_onProduceData` block for good when their request is displaced or
  cleared or its reply cannot be read (`Promises.StrandedBlocks`).
- From the start of a file the reader takes the first unit together with its start code for a unit
  of type 0, so parameter sets at the front are cached only after the first wrap. A unit is
  delivered behind the start code that *ends* it. On a well-formed file without a slice a call never
  returns.
- The loop of `replace` ends exactly when the pattern is not empty or the text is. The empty text
  contains nothing, not even the empty pattern. Deleting a pattern removes it from every text exactly
  when all its characters compare equal; from any other pattern one can build a text that leaves it.
- Looking a peer up leaves a null entry behind for a peer that is not there. From then on the peer is
  shut out for good: it never joins and nothing about it is reported.
- Muting a peer stops at the first entry of that peer that is no media consumer, and asking whether
  the peer is muted follows a null pointer there. `MediaMute.MuteIsCompleteIff` and
  `MediaMute.AskMutedIff` say exactly when the two work.

## Model

| member | source | states |
|---|---|---|
| `SdpText.SplitLines` | core/utils/sdp_utils.cpp:127-135 | the getline loop delivers the pieces between delimiters, none after a final one |
| `SdpText.GetLine` | core/utils/sdp_utils.cpp:131-133 | an item ends at the next delimiter or at the end of the text |
| `SdpText.JoinLines` | core/utils/sdp_utils.cpp:137-152 | the loop puts the separator between any two lines and nowhere else |
| `SdpText.JoinOfSplit` | core/utils/sdp_utils.cpp:127-152 | joining what was split gives the text back, less one final delimiter |
| `SdpText.SplitOfJoin` | core/utils/sdp_utils.cpp:127-152 | splitting what was joined gives the lines back if and only if no line holds the delimiter and the last line is not empty |
| `SdpParse.MlineMeaning` | core/utils/sdp_utils.cpp:17-27 | the m-line matcher accepts exactly the lines the expression describes, with that media type |
| `SdpParse.FidMeaning` | core/utils/sdp_utils.cpp:29-42 | the FID matcher accepts exactly the spellings of its expression, with the two SSRCs as groups |
| `SdpParse.AttributeMeaning` | core/utils/sdp_utils.cpp:44-87 | the cname, mslabel and label matchers accept exactly the spellings of their expressions, with SSRC and value as groups |
| `SdpParse.ReadIsExact` | core/utils/sdp_utils.cpp:17-87 | no line is taken by two recognisers: one token per line says what each of them says |
| `SdpParse.ReadIsProper` | core/utils/sdp_utils.cpp:17-87 | captured groups are non-empty runs of digits and non-empty words |
| `SdpParse.CharacterClasses` | core/utils/sdp_utils.cpp:18-19 | white space, digits and case folding by character code |
| `SdpScan.ScanOneLine` | core/utils/sdp_utils.cpp:165-214 | one round with its early exits is the latch step on the token of the line |
| `SdpScan.ScanLines` | core/utils/sdp_utils.cpp:160-214 | the whole loop is the fold of that step |
| `SdpScan.ScanKeeps` | core/utils/sdp_utils.cpp:183-213 | a latched value never changes, latched values are words, no label without an SSRC |
| `SdpScan.SpliceInvariant` | core/utils/sdp_utils.cpp:168-181 | the index marks the line before the m-line that ended a video section, at every point of the scan |
| `SdpScan.SectionOpen` | core/utils/sdp_utils.cpp:168-181 | while the video flag is set an m=video line was seen and no m-line since |
| `SdpFinds.ScanMeans` | core/utils/sdp_utils.cpp:160-214 | what the scan finds, without the scan: the SSRC and FID partner of the first line of a video section that announces one, the first cname, mslabel and label of that SSRC from there on, a SIM group if a video section has one, and the index before the last m-line that ended a video section |
| `SdpFinds.InjectsIff` | core/utils/sdp_utils.cpp:156-217 | a list changes if and only if the count is 1 or 2, there is no SIM group, and SSRC, cname, mslabel and label were found |
| `SdpInject.GenSsrcValue` | core/utils/sdp_utils.cpp:89-99 | a drawn SSRC prints as nine digits that denote the drawn number, or as more without zeros in front |
| `SdpInject.InjectSsrc` | core/utils/sdp_utils.cpp:101-109 | appends the four attribute lines of an SSRC |
| `SdpInject.InjectSsrcAndFid` | core/utils/sdp_utils.cpp:111-125 | appends one layer from two draws, with the FID line and the partner's lines if there is a FID |
| `SdpInject.PrintBlock` | core/utils/sdp_utils.cpp:218-227 | the printing loop yields the layers and then the SIM line |
| `SdpInject.InjectSimulcast` | core/utils/sdp_utils.cpp:154-232 | the whole routine: bounds on the count, scan, block and splice |
| `SdpLaws.BlockReadsBack` | core/utils/sdp_utils.cpp:101-125 | the recognisers recover from the block every drawn SSRC in use with the original cname, mslabel and label; 4n+1 lines, or 9n+1 with FID |
| `SdpLaws.BlockGrouped` | core/utils/sdp_utils.cpp:101-109 | every cname line of the block begins the four lines of its SSRC: the next, cut at its blanks, is `a=ssrc:` with that SSRC, `msid:` with the mslabel and then the label that the two lines after it give |
| `SdpLaws.SimLineReadsBack` | core/utils/sdp_utils.cpp:218-227 | the last line is `a=ssrc-group:SIM ` with the original SSRC and then the primary draws in order |
| `SdpLaws.Placement` | core/utils/sdp_utils.cpp:165-231 | the output is the input with one contiguous block, strictly after an m=video line with no m-line between, before the next m-line or at the end; the line that announced the SSRC is in that section if and only if it lies after that m=video line and not after the splice |
| `SdpLaws.SpliceState` | core/utils/sdp_utils.cpp:168-231 | the splice is inside a video section if and only if its index names no m-line |
| `SdpLaws.OneSectionSplice` | core/utils/sdp_utils.cpp:165-231 | with at most one m=video line the splice is always inside its section and after the SSRC |
| `SdpLaws.OneSectionHome` | core/utils/sdp_utils.cpp:165-231 | with at most one m=video line the block extends the SSRC of the very section it is put into |
| `SdpLaws.RescanFinds` | core/utils/sdp_utils.cpp:160-231 | what scanning the output finds, for every list that fires: the same values, except that an SSRC latched only after the splice gives way to the first two draws |
| `SdpLaws.RescanFindsTheSame` | core/utils/sdp_utils.cpp:160-231 | the same SSRC, FID partner, cname, mslabel and label are found if and only if the splice is at an m-line, or the SSRC is latched before it, or the first draws are the old numbers |
| `SdpLaws.RescanCanDiffer` | core/utils/sdp_utils.cpp:165-231 | a list with two m=video lines whose rescan finds another SSRC, whatever is drawn |
| `SdpLaws.InjectTwice` | core/utils/sdp_utils.cpp:154-232 | for every list a second injection changes nothing if and only if the first did not fire at an index that names an m-line |
| `SdpLaws.InjectIdempotent` | core/utils/sdp_utils.cpp:154-232 | idempotence and rescan stability for every list with at most one m=video line, any second count and any draws |
| `SdpLaws.SecondInjectionCanFire` | core/utils/sdp_utils.cpp:173-177 | with two m=video lines there is a list into which a second injection puts a second block |
| `SdpSession.SplitOfAnyJoin` | core/utils/sdp_utils.cpp:127-152 | joining and splitting any list of lines drops an empty last line and nothing else |
| `SdpSession.InjectIsLines` | core/utils/sdp_utils.cpp:101-125 | no injected line holds a line end |
| `SdpSession.TextTwice` | core/utils/sdp_utils.cpp:127-232 | for every text, split, inject and join a second time changes nothing if and only if the first injection did not fire at an m-line and its result does not end in a line end |
| `SdpSession.ResultEnds` | core/utils/sdp_utils.cpp:127-232 | the result ends in a line end if and only if the text ends in two and no block was put after the last line |
| `SdpSession.TextIdempotent` | core/utils/sdp_utils.cpp:127-232 | idempotence on texts with at most one m=video line, exactly outside texts that end in two line ends and get no block after them |
| `JsonLoops.SetNative` | core/json/serialization.hpp:210-247 | writing native values, arrays and objects element by element |
| `JsonLoops.AdaptNative` | core/json/serialization.hpp:151-209 | reading native values: containers are cleared and filled, the first bad element throws |
| `JsonLoops.AdaptItems` | core/json/serialization.hpp:184-195 | the loop that fills a vector, up to the first bad element |
| `JsonLoops.AdaptEntries` | core/json/serialization.hpp:197-209 | the loop that fills a map, later equal keys winning |
| `JsonLoops.Serialize` | core/json/serialization.hpp:450-467 | fields are written in declaration order, empty optionals not at all |
| `JsonLoops.SerializeMember` | core/json/serialization.hpp:280-377 | what each kind of data member adds to its object |
| `JsonLoops.Deserialize` | core/json/serialization.hpp:471-488 | fields are read in declaration order, the first failure throws |
| `JsonLoops.DeserializeMember` | core/json/serialization.hpp:289-333 | how each kind of data member is read into its target, with all errors |
| `JsonLoops.DeserializeVector` | core/json/serialization.hpp:347-360 | reading a vector of structs |
| `JsonLoops.DeserializeMap` | core/json/serialization.hpp:379-403 | reading a map of structs, later equal keys winning |
| `JsonMeaning.FindMeaning` | core/json/serialization.hpp:290-293 | a lookup gives the first member of the name, and nothing exactly if there is none |
| `JsonMeaning.LessMeaning` | core/json/serialization.hpp:197-207 | keys are ordered by their first difference, a prefix first |
| `JsonMeaning.ReadsIff` | core/json/serialization.hpp:151-488 | reading succeeds if and only if the type accepts the tree, said on the tree alone: kinds, ranges, missing keys, nulls and nesting |
| `JsonMeaning.NativeFits` | core/json/serialization.hpp:151-209 | a native type accepts exactly trees of its kind and range, element by element, and any other is a type mismatch |
| `JsonMeaning.MemberError` | core/json/serialization.hpp:289-386 | which exception a tree causes that is no object, lacks the key or has the wrong kind |
| `JsonMeaning.ReadMeans` | core/json/serialization.hpp:151-488 | the value that reading gives, said on the tree: the number, flag or text before the first NUL, elements in order, the last member of each key, targets kept where optionals are missing or null |
| `JsonMeaning.WritesWhatItShows` | core/json/serialization.hpp:210-467 | the tree that writing gives: one member for each field that is no empty optional, in declaration order, each with exactly its value |
| `JsonLaws.PutSorted` | core/json/serialization.hpp:401-401 | assignment to a key keeps a map sorted |
| `JsonLaws.PutHas` | core/json/serialization.hpp:401-401 | assignment to a key leaves exactly the new entry and the entries of all other keys |
| `JsonLaws.WriteHolds` | core/json/serialization.hpp:450-467 | with distinct keys, looking a field up in the written object finds what was written for it, and nothing where nothing was |
| `JsonLaws.FieldsBack` | core/json/serialization.hpp:151-488 | reading a written object into any target gives the image of the value: strings cut at NUL, empty optionals taken from the target |
| `JsonLaws.RoundTrip` | core/json/serialization.hpp:151-488 | write and read is the identity if and only if strings are free of NUL and the target is empty where the value is |
| `JsonLaws.RoundTripFresh` | core/json/serialization.hpp:151-488 | into an object whose optionals start empty write and read is the identity if and only if strings are free of NUL; for types whose optionals have default values see `JsonLaws.RoundTrip`, with the defaults as target |
| `JsonMessages.HeaderProjection` | core/json/serialization.hpp:280-361 | a header type reads exactly the projection of a full message, whatever else the message has |
| `JsonMessages.HoldsInAnyOrder` | core/json/serialization.hpp:320-332 | member order and extra members do not matter when keys are unique |
| `JsonMessages.FieldsClean` | core/json/serialization.hpp:151-209 | whatever a read returns is well typed, free of NUL, and keeps what the target had where nothing was read |
| `JsonMessages.ReadNormalises` | core/json/serialization.hpp:172-404 | for every tree, with repeated keys, nulls and unknown members, writing what was read and reading it again gives it again |
| `Dispatch.ParseThree` | core/json/serialization.hpp:553-570 | reading a header of three optionals succeeds exactly when each is absent, null or of its type, and gives those values |
| `Dispatch.ReplyIff` | core/service/signaling_client.cpp:125-206 | a message is taken as a reply to an id if and only if it says so and every field the two headers look at is readable |
| `Dispatch.NotificationIff` | core/service/signaling_client.cpp:125-221 | a message is taken as a notification if and only if it says so and its flags and method can be read, and then under that method |
| `Dispatch.RequestIff` | core/service/signaling_client.cpp:125-155 | a message is taken as a request if and only if it says so and not that it is a notification or response, and its flags, id and method can be read, and then under that method |
| `Dispatch.OnlyObjects` | core/service/signaling_client.cpp:125-131 | a tree that is no object is dropped |
| `Dispatch.ResponseIsReply` | core/service/signaling_client.cpp:183-206 | every message that says it is a response and holds a value of a type with `id` and `ok`, in any member order and with extra members, is taken as a reply to its id and read by its own type into any object, also for a type that has `request` instead of `response` and default values |
| `Dispatch.TypeSaysResponse` | core/service/signaling_models.h:60-65 | a message of a type whose field `response` is true says it is a response, unless it has members called request or notification |
| `Dispatch.ReplyFindsItsRequest` | core/service/signaling_client.cpp:183-206 | in every reachable state and for every request a message newly takes it out of the table if and only if it is pending and the message is a reply whose id is its key |
| `Dispatch.MessageResolvesById` | core/service/signaling_client.cpp:183-206 | over every schedule a message with the id of a pending request takes and resolves that request, if the id fits 31 bits |
| `SignalingObject.SignalingClient.TransmitText` | core/service/signaling_client.cpp:62-71 | the first half of send, as one step: the new request has the id that was sent, and nothing else changes; an empty text makes no request |
| `SignalingObject.SignalingClient.RegisterRequest` | core/service/signaling_client.cpp:72-76 | the second half of send, as one step; an equal key displaces |
| `SignalingObject.SignalingClient.TakeRequest` | core/service/signaling_client.cpp:192-201 | the locked part of handleResponse, as one step |
| `SignalingObject.SignalingClient.ResolveRequest` | core/service/signaling_client.cpp:202-204 | the resolve callback runs outside the lock, as one step |
| `SignalingObject.SignalingClient.OnClosed` | core/service/signaling_client.cpp:107-117 | every request in the table is rejected once with code 2 and the table is emptied |
| `SignalingObject.SignalingClient.ClearRequests` | core/service/signaling_client.cpp:97-100 | the table is emptied, all that was pending is cleared, and no callback runs |
| `SignalingObject.CloseEach` | core/service/signaling_client.cpp:109-111 | the loop rejects each entry of the table once, in some order |
| `SignalingLaws.StepKeeps` | core/service/signaling_client.cpp:62-117 | every step keeps the invariant of the request table |
| `SignalingLaws.RunKeeps` | core/service/signaling_client.cpp:62-117 | the invariant holds after every schedule |
| `SignalingLaws.Conservation` | core/service/signaling_client.cpp:62-210 | after every schedule each sent request is in exactly one place: being sent, pending, taken, completed, displaced or cleared |
| `SignalingLaws.SentUnderItsId` | core/service/signaling_client.cpp:66-74 | over every schedule the request that sending an id makes keeps that id, cut to 32 bits, as its key |
| `SignalingLaws.RegisteredIsPending` | core/service/signaling_client.cpp:72-75 | registering a transmitted request makes it pending under its id |
| `SignalingLaws.ReplyResolvesById` | core/service/signaling_client.cpp:192-204 | over every schedule the reply with the id of a pending request takes it, and its callback is logged with that id |
| `SignalingLaws.ClearForgets` | core/service/signaling_client.cpp:97-100 | after clearing nothing is pending, all that was is cleared, and no callback has run |
| `SignalingLaws.TimeoutsDoNothing` | core/websocket/websocket_request.h:79-84 | over every schedule the run is the one without its timeouts |
| `SignalingLaws.AtMostOnce` | core/websocket/websocket_request.h:40-91 | no request has two callbacks run; a reply resolves only the request whose key is its id; a rejection has code 2 |
| `SignalingLaws.CloseRejectsAll` | core/service/signaling_client.cpp:107-117 | after a close nothing is pending and all that was has been rejected |
| `SignalingLaws.DistinctKeysNeverDisplace` | core/service/signaling_client.cpp:72-76 | only a request of equal key displaces; with distinct keys none is displaced |
| `SignalingLaws.KeysCollide` | core/websocket/websocket_request.h:40-40 | keys agree if and only if ids agree modulo 2^32; the key is the id if and only if the id fits 32 bits |
| `SignalingLaws.DisplacedIsSilent` | core/service/signaling_client.cpp:72-100 | a displaced or cleared request has no callback run |
| `SignalingLaws.TakesIff` | core/service/signaling_client.cpp:192-201 | in every reachable state a reply newly takes a request if and only if that is pending under the id of the reply and the id is not -1 |
| `SignalingLaws.EarlyReplyIsLost` | core/service/signaling_client.cpp:70-75 | in every reachable state no reply reaches a request that is transmitted and not registered; registering then leaves it pending |
| `SignalingLaws.LostUntilRegistered` | core/service/signaling_client.cpp:70-75 | over every schedule such a request gets no callback until it is registered |
| `SignalingLaws.CallbackOnce` | core/service/mediasoup_api.h:175-212 | after every schedule each API callback has fired at most once, with code 0 exactly when there is a response |
| `SignalingLaws.CallbackTold` | core/service/mediasoup_api.h:191-211 | a completed request tells its API caller exactly once, with code 0 and a response for a reply and with code 2 and none for a rejection, and not at all if the reply is empty or does not parse |
| `Promises.PromiseOnce` | core/service/room_client.cpp:654-831 | after every schedule the promise of `_onConnect`, `_onProduce` or `_onProduceData` has been set at most once |
| `Promises.WaitEndsIff` | core/service/room_client.cpp:684-831 | the waiting call returns if and only if its request was rejected or got a reply that can be read |
| `Promises.WaitEndsWith` | core/service/room_client.cpp:687-828 | it returns "" for a connect, a rejection or a response without `ok`, otherwise the id in the data or "" if there is none, and dereferences data that is not there |
| `Promises.ContentIff` | core/service/mediasoup_api.h:197-202 | a reply can be read if and only if its response type accepts it |
| `Promises.ReturnsTheId` | core/service/room_client.cpp:764-828 | over every schedule `_onProduce` and `_onProduceData` return the `id` member of the `data` of the message that completes them |
| `Promises.StrandedBlocks` | core/service/room_client.cpp:684-831 | once its request is displaced or cleared or its reply cannot be read, the call blocks over every schedule that follows |
| `Handshake.StepKeeps` | core/service/room_client.cpp:229-513 | every step keeps the handshake invariant |
| `Handshake.HandshakeOrder` | core/service/room_client.cpp:229-513 | for all options and schedules the requests issued are a prefix of the plan with at most one outstanding; CONNECTED means the whole plan was answered and exactly the requested transports are installed |
| `Handshake.ConnectedByJoinOnly` | core/service/room_client.cpp:468-488 | only a response to the join request connects |
| `Responses.AnswerMeans` | core/service/signaling_models.h:156-217 | the members of a message decide exactly what answer its response type reads from it: its `ok`, and whether the optionals are set that the task of the request dereferences |
| `Responses.AnswerIff` | core/service/mediasoup_api.h:197-202 | a message gives an answer if and only if its response type accepts it |
| `Responses.HeldAnswer` | core/service/signaling_models.h:74-331 | every message that holds a response value, in any member order, is read and gives the answer of the value |
| `Responses.RefusalExists` | core/service/signaling_models.h:156-331 | for every request there is a message that is a reply to it, says `ok: false`, and has all that the request's task needs |
| `Handshake.Progress` | core/service/room_client.cpp:229-513 | a usable answer and its task issue the next request of the plan, or connect |
| `Handshake.IssuesIff` | core/service/room_client.cpp:266-470 | in every reachable room a task with a usable response issues the next request of the plan if and only if the device loads and the capabilities for the request parse; otherwise the handshake stands still for good |
| `Handshake.UndefinedIff` | core/service/room_client.cpp:266-510 | in every reachable room a posted task dereferences an empty optional if and only if its response is not usable, and then nothing was loaded, installed or asked for |
| `Handshake.NoDeviceNoTransport` | core/service/room_client.cpp:383-386 | without a device no transport is installed |
| `Handshake.JoinRefusedIff` | core/service/room_client.cpp:140-186 | a join starts a session with its options if and only if it has all arguments and no session is on; otherwise it changes nothing |
| `Handshake.GoodAnswersConnect` | core/service/room_client.cpp:229-513 | from every reachable state with a waiting request, one usable answer for each unanswered request of the plan connects with exactly the requested transports, whatever the flags say |
| `Handshake.JoinsWithAnyOptions` | core/service/room_client.cpp:140-513 | a fresh client with any options connects after usable answers to its whole plan |
| `Handshake.PostsIff` | core/service/room_client.cpp:245-262 | in every reachable room an answer posts its task if and only if it is a response whose `ok` is present |
| `Handshake.MessagePostsIff` | core/service/room_client.cpp:251-262 | a message that can be read does so if and only if it has a member `ok` that is true or false |
| `Handshake.TransportInstalledIff` | core/service/room_client.cpp:380-418 | in every reachable room a message that answers a transport request installs the transport if and only if its data has ICE parameters, ICE candidates, DTLS parameters and SCTP parameters; otherwise the behaviour is undefined and no join is asked for |
| `Handshake.StandsStill` | core/service/room_client.cpp:245-254 | after any other answer no schedule moves the handshake |
| `Handshake.RefusalsConnect` | core/service/room_client.cpp:251-254 | whatever messages answer the requests, if they can be read, all say `ok: false` and have the data that their requests need, the room connects with exactly the requested transports |
| `Handshake.ReopeningLeavesThePlan` | core/service/room_client.cpp:833-842 | after a second open event the client asks for the capabilities again and leaves the plan |
| `HandshakeCalls.RunsAlike` | core/service/room_client.cpp:229-513 | without repeated callbacks the handshake needs no guard against them |
| `HandshakeCalls.DrivenHandshake` | core/service/mediasoup_api.h:191-211 | over every schedule of the request table, a handshake whose callbacks are its API calls follows the plan and arrives with exactly the requested transports |
| `Handshake.RoomClient.JoinMeeting` | core/service/room_client.cpp:140-186 | joins only when closed and with all arguments, as one step |
| `Handshake.RoomClient.OnOpened` | core/service/room_client.cpp:833-842 | the first open event posts the first task and keeps the invariant; a second one posts the same task again |
| `Handshake.RoomClient.OnAnswer` | core/service/room_client.cpp:236-263 | an API callback is one step of the system |
| `Handshake.RoomClient.RunNextTask` | core/service/room_client.cpp:255-262 | a posted task is one step of the system |
| `AnnexBReader.H264Reader.ReadOneNalu` | test/reader.cpp:92-170 | the loop over the array ends in the state of the step machine when that stops; no index is out of range |
| `AnnexBReader.H264Reader.Round` | test/reader.cpp:96-109 | one round: wrap at end of file, stop at a full buffer, otherwise store |
| `AnnexBReader.H264Reader.Store` | test/reader.cpp:107-168 | a byte is stored and completes a four-byte or three-byte start code or neither |
| `AnnexBReader.H264Reader.Dispatch` | test/reader.cpp:112-137 | units of types 1 and 5 are delivered, those of type 5 behind the parameter sets, units of types 7 and 8 are cached |
| `AnnexBLaws.FileIsClip` | test/reader.cpp:92-170 | good units behind three- or four-byte start codes, end to end, make a well-formed file |
| `AnnexBLaws.ReadsOn` | test/reader.cpp:96-168 | from the body of a unit the reader comes to the body of the next, around the end of the file, having recognised exactly that unit |
| `AnnexBLaws.CallVisits` | test/reader.cpp:92-170 | a call from an aligned position returns at the unit after the next slice, having recognised the units between |
| `AnnexBLaws.ReturnsIff` | test/reader.cpp:96-168 | on a well-formed file a call from an aligned position returns if and only if the file has a slice |
| `AnnexBLaws.ReturnsFromStartIff` | test/reader.cpp:96-168 | so does a call from the start of the file |
| `AnnexBLaws.StartSkipsFirstUnit` | test/reader.cpp:107-137 | from the start of the file the first unit is neither delivered nor cached and the reader is aligned after it |
| `AnnexBLaws.VisitedIs` | test/reader.cpp:112-164 | the caches hold the latest parameter sets and the packets are those of the slices visited |
| `AnnexBLaws.DeliversTheSlices` | test/reader.cpp:92-170 | any number of calls deliver exactly the units whose first byte has 1 or 5 in its low five bits, one per call, in order and byte for byte, across the end of the file, those with 5 behind the latest units with 7 and 8 |
| `AnnexBLaws.FreshReader` | test/reader.cpp:92-170 | the same for a fresh reader, from the second unit on |
| `TextReplace.SearchFinds` | core/json/string_algo.hpp:92-99 | the search finds the first match; the end means none |
| `TextReplace.ContainsMeaning` | core/json/string_algo.hpp:92-103 | containment is an occurrence somewhere in a non-empty text, exactly or up to case |
| `TextReplace.UpperMeaning` | core/json/string_algo.hpp:40-56 | characters compare equal up to case exactly if they are equal or a small and a capital letter of the 26 |
| `TextReplace.FindAfter` | core/json/string_algo.hpp:104-125 | the position right after the first occurrence, or the end if there is none |
| `TextReplace.EndsIff` | core/json/string_algo.hpp:162-176 | the loop ends after some number of rounds if and only if the pattern is not empty or the text is |
| `TextReplace.TurnsGive` | core/json/string_algo.hpp:169-177 | whenever the loop has ended, its result with the rest of the text is the text with every leftmost non-overlapping match replaced |
| `TextReplace.Replace` | core/json/string_algo.hpp:154-186 | the loop puts the new text between the pieces that the leftmost non-overlapping matches leave |
| `TextReplace.ReplaceBySelf` | core/json/string_algo.hpp:154-186 | replacing a pattern by itself changes nothing that the comparison can see |
| `TextReplace.ReplaceBySelfExact` | core/json/string_algo.hpp:154-179 | `replace(t, s, s) == t` for every non-empty pattern |
| `TextReplace.ReplaceLength` | core/json/string_algo.hpp:154-186 | every match adds the difference of the lengths |
| `TextReplace.ReplaceRemovesAll` | core/json/string_algo.hpp:154-186 | a non-empty replacement that shares no character with the pattern leaves no occurrence of it |
| `TextReplace.ReplaceTwice` | core/json/string_algo.hpp:154-186 | under that condition replacing again changes nothing |
| `TextReplace.SingleIff` | core/json/string_algo.hpp:154-186 | for a pattern of one character, replacing removes it from every text if and only if no character of the new text compares equal to it |
| `TextReplace.DeletingIff` | core/json/string_algo.hpp:154-186 | deleting a pattern removes every occurrence from every text if and only if all characters of the pattern compare equal |
| `TextReplace.NestedLeaves` | core/json/string_algo.hpp:154-186 | for any other pattern, a text from which deleting it leaves exactly the pattern |
| `TextReplace.DeletingExamples` | core/json/string_algo.hpp:154-186 | deleting "ab" from "aabb" leaves "ab"; deleting "aA" up to case always works |
| `TextReplace.ToStringVector` | core/json/string_algo.hpp:277-288 | the loop that drops the last separator is joining |
| `Participants.HandlerEmits` | core/service/participant_controller.cpp:74-345 | a handler emits at most one notification: a join from outside, anything else from inside |
| `Participants.EventsAreBracketed` | core/service/participant_controller.cpp:74-345 | over every sequence of calls and for every peer notifications are bracketed, and the peer is inside exactly when the map holds it |
| `Participants.BetweenJoinAndLeave` | core/service/participant_controller.cpp:115-345 | every other notification comes after a join of that peer with no leave between |
| `Participants.LeaveBetweenJoins` | core/service/participant_controller.cpp:74-144 | between two joins of a peer there is a leave |
| `Participants.ShowsLastReported` | core/service/participant_controller.cpp:146-260 | over every sequence of calls a participant shows the name, volume and mute states last reported since it joined |
| `Participants.EarlyEventShutsOut` | core/service/participant_controller.cpp:115-160 | after an event for a peer that is not there nothing about that peer is ever reported |
| `Participants.ShutOutIff` | core/service/participant_controller.cpp:74-345 | an entry is null if and only if some call was made for that peer while it had no entry |
| `Participants.RunsAreLawful` | core/service/participant_controller.cpp:74-345 | after every sequence of calls notifications are bracketed, the peers inside are those in the map, and participants show what was last reported |
| `Participants.ParticipantController.CreateOne` | core/service/participant_controller.cpp:74-97 | keeps that law; the peer has an entry afterwards, and is inside under the given name and reported to have joined if and only if it had none; other peers are untouched |
| `Participants.ParticipantController.NewPeer` | core/service/participant_controller.cpp:99-113 | keeps that law; a join is reported, under the given name, if and only if the id is not empty and had no entry, null or not; other peers are untouched |
| `Participants.ParticipantController.PeerClosed` | core/service/participant_controller.cpp:115-144 | keeps that law; the peer is outside afterwards, a leave is reported if and only if it was inside, and a peer that was not is shut out whatever follows |
| `Participants.ParticipantController.Handle` | core/service/participant_controller.cpp:146-345 | keeps that law; a peer inside stays inside and shows the new state, which is reported; a peer that is not inside is shut out whatever follows |
| `MediaMute.ConsumersHavePeers` | core/service/media_controller.cpp:594-623 | over every run each media consumer has a peer entry |
| `MediaMute.EntriesBelong` | core/service/media_controller.cpp:594-868 | until destroy every peer entry belongs to a consumer or data consumer, so a peer without data consumers has media consumers only |
| `MediaMute.MuteIsComplete` | core/service/media_controller.cpp:358-424 | when a peer has media consumers only, muting sets exactly its consumers of that kind, in any order of the walk |
| `MediaMute.MuteIsCompleteIff` | core/service/media_controller.cpp:358-424 | muting does that in every order if and only if there is an API object and the peer has media consumers only, or there is nothing to change |
| `MediaMute.AsksForTheAffected` | core/service/media_controller.cpp:376-420 | the server is asked about exactly the affected consumers, each once |
| `MediaMute.AskMutedIff` | core/service/media_controller.cpp:426-437 | asking answers in every order if and only if the peer has media consumers only, and then says whether none runs |
| `MediaMute.MuteThenAsk` | core/service/media_controller.cpp:358-437 | after muting, asking gives what was set, or the peer has no consumer of that kind |
| `MediaMute.RunsAreLawful` | core/service/media_controller.cpp:594-868 | after every sequence of calls each consumer has a peer and, until destroy, each peer entry a consumer or data consumer |
| `MediaMute.MediaController.CreateNewConsumer` | core/service/media_controller.cpp:594-623 | keeps that law; the consumer is entered, running, so that its peer is not muted, unless consuming is off or there is no transport; other ids are untouched |
| `MediaMute.MediaController.CreateNewDataConsumer` | core/service/media_controller.cpp:663-695 | keeps that law; under the same conditions and with data channels on the peer afterwards has an entry that is no media consumer, unless one has the same id |
| `MediaMute.MediaController.OnConsumerClosed` | core/service/media_controller.cpp:821-868 | keeps that law; consumer and entry of that id are gone, other ids are untouched, and a peer with media consumers only stays one |
| `MediaMute.MediaController.UpdateConsumer` | core/service/media_controller.cpp:557-592 | keeps that law; the consumer of a non-empty id runs or pauses as told, and nothing else changes |
| `MediaMute.MediaController.MutePeer` | core/service/media_controller.cpp:476-542 | keeps that law; the walk over the peer table with the requests it sends; for a peer with media consumers only exactly its consumers of that kind are set, with one request each |
| `MediaMute.MediaController.IsPeerMuted` | core/service/media_controller.cpp:544-555 | the walk that asks; for a peer with media consumers only it says whether none of that kind runs |
| `MediaMute.MediaController.Close` | core/service/media_controller.cpp:37-64 | keeps that law; destroy forgets the consumers and keeps the peer table, so that no peer with an entry can be muted or asked about reliably |

## Left out

- SdpParse.MlineMeaning: `^` is taken as the start of the line only, and case folding and classes are those of the C locale on ASCII.
- SdpInject.InjectSimulcast: the vector that the source changes in place is a value passed in and returned.
- JsonLoops.Deserialize: the partially filled target that is left behind by a failed read; every caller in the client drops it.
- JsonLaws.RoundTrip: float members, enum members, optionals directly inside optionals, and nested or element structs whose optionals have non-empty defaults (only whole message types have such defaults: the requests and the transport response); doubles are real numbers.
- JsonLaws.RoundTripFresh: a target whose optionals have default values; that case is in JsonLaws.RoundTrip.
- AnnexBReader.H264Reader.ReadOneNalu: the method is specified for runs of the loop that end; the callback is always set.
- AnnexBLaws.DeliversTheSlices: files whose units hold a start code, end in a zero byte, have fewer than two bytes or do not fit the buffer.
- SignalingObject.SignalingClient.TransmitText: the length of the timeout and the timer thread; requests that carry bytes instead of text take the same path.
- SignalingLaws.Conservation: no claim that every request is answered, because timeouts reject nothing.
- Handshake.HandshakeOrder: one session of a fresh, initialised client whose connection opens once (Handshake.ReopeningLeavesThePlan says what a second opening does); leave, close, re-join and teardown, and what follows the dereference of an empty optional.
- Participants.ParticipantController.Handle: participants are values, so that observers share the objects is not captured; nor are track lists, the order in which observers are told on their own threads, and destroy.
- MediaMute.MediaController.OnConsumerClosed: notifications to observers and the cached track lists, which are taken before the entry is erased.
- Handshake.TransportInstalledIff: what the media library makes of the parameters, such as refusing candidates, is not modelled.
- Promises.WaitEndsIff: calls that return before they send a request, because an object is missing or parameters do not parse.
- Dispatch.ReplyIff: the names of notifications and requests are modelled, the observer call that each name leads to is not.
- Parsing and printing of JSON text: the model works on trees.
- Websocket endpoints, TLS, connection metadata and transport threads: only open, close and message events appear.
- Creation of producers, transports and consumers in WebRTC and libmediasoupclient, dummy video source and encoder, and the audio reader: calls into libraries.
- `equals`, `startsWith`, `combineString` and the conversions of `string_algo`, `StringBuffer.h`, observers, logging, proxies and singletons: plumbing or easy members.
