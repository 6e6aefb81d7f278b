# Verification of the hypno web server

A Dafny model of the parts of the hypno web server whose correctness is not visible in one
function body, with proofs of what they keep, undo and promise. Every file is one component;
`dafny verify dfyconfig.toml` checks all of them.

## The system

**The thread-slot pool** (`ConnectionPool`, `ConnectionPoolSafety`, `Acceptor`). One acceptor
thread and any number of worker threads share a table of 256 slots without a lock. The pool is
a step system in which every access to shared memory is one event, so an event list is one
interleaving. The acceptor's search can leave its pointer on an occupied slot when it runs off
the end of the pool; that it never accepts into one rests on an invariant over whole runs that
relates the counter, the search index and the available slots, and is proved for every
interleaving, thread creation failures and timeouts included. The acceptor loop itself is a
class over the real array. Given what the rest of the world does (the workers' steps, the
clock, what accept and thread creation answer), its methods make exactly the moves of the step
system that this leads to, so what is proved of runs holds of the loop, and what must happen in
a given world does happen.

**Table conversion** (`LuaValues`, `RecordStream`, `TableConversion`, `TableRebuild`,
`TableMerge`, `TableSlices`, `Hosts`, `RouteResources`). A nested Lua table is written as a flat
stream of records with opening and closing records. The stream is rebuilt into a table by a
machine with an explicit stack of positions, cut into balanced pieces by depth-counting
iterators, and turned into the list of virtual hosts and into the resources of a route.

**Request handling** (`HttpRead`, `HttpWrite`, `ServerLifecycle`). Reads and writes run against
an arbitrary schedule of socket calls: partial reads and sends, refusals, failures, an early
close, and a clock. Unless something cuts a request short, the bytes the peer gets are a
function of the bytes it sent, however either were fragmented.

**Base 64** (`Base64`, `Base64Decode`). The encoder and the decoder are separate loops. Both are
tied to the encoding as section 4 of RFC 4648 defines it, and the round trips are proved in
both directions, the second for exactly the canonical texts of section 3.5.

**Routes and templates** (`Walker`, `Router`, `RouteMeaning`, `TemplateReplace`). The route
compiler and matcher, with the exact rule a compiled route matches by and the exact class of
routes that are matched as written for; and the in-place template substitution.

### Where the code is not what it looks like

* A timeout does not decrement the connection counter, so every timeout permanently uses up
  one unit of it; `CounterIsOccupancyPlusTimeouts` states the exact relation. Nor does it move
  the search index, so a full pool whose worker hangs recovers only at the next scan
  (`TimeoutByVisit`, `HungPoolRecovers`). A thread that
  cannot be created leaves its descriptor open; it is recorded as leaked.
* `lua_merge` hands `lua_next` a copy of each key, made as a float or as a text cut at its first
  NUL. No table holds an integer key as a float, so the first integer key of a traversal is a
  Lua error, `{[1]="a"}` included; a text with a NUL is one too, or makes the loop skip entries
  or run for ever. `FirstLostKeyEndsIt` and `MovesEverythingExactly` state what happens.
* An empty text is stored as no text and comes back as nil, integers are cut to a C int, and
  integer values come back as floats. `ztable_to_lua` never asks for room on the Lua stack, so
  what Lua guarantees runs out at nine or ten levels of nesting, long before its own array of
  128 positions. `RoundTripIsExact` says which tables survive, with an if and only if.
* The string walker leaves each delimiter on the piece it ends, and the route compiler keeps it
  there. A list of options such as `{a,b}` therefore refuses each of its options, an id with a
  type matches only as the last segment without a slash after it, and a final literal matches
  only with the same trailing slash. `MatchesByRule` states the rule,
  `TakenAsMeantExactlyIfPlain` the exact class of routes that match what they say, and
  `ListedOptionIsRefused` the failing family.
* The base 64 decoder counts the place of a character in its group by its position in the whole
  text, so a skipped character shifts the groups after it. What it returns on such texts is
  modelled as it is; the length it returns, the bounds of its writes and `AcceptedExactly` hold
  on all of them.
* In `write_notls` the test `errno != EAGAIN || errno != EWOULDBLOCK` is read with the two
  constants equal, as on Linux, and `x` in the decoder with a signed `char`, as on x86.
* A body that ends early is passed on for processing with its announced length.

## Model

| member | source | states |
|---|---|---|
| ConnectionPoolSafety.StepInv | src/server/multithread.c:96-141 | every step of the acceptor or of a worker keeps the invariant tying the counter, the search index and the slots, each worker's standing to its slot, and the log of joins |
| ConnectionPoolSafety.AcceptsOnlyIntoAvailableSlots | src/server/multithread.c:168-311 | in every interleaving, timeouts included, the slot accepted into is an available slot of the pool, and none is chosen only when the pool counts as full |
| ConnectionPoolSafety.LiveWorkersHaveTheirOwnSlots | src/server/multithread.c:236-307 | no two live workers ever share a slot |
| ConnectionPoolSafety.CounterIsOccupancyPlusTimeouts | src/server/multithread.c:184-232 | the counter is the number of occupied slots plus the timeouts so far; without timeouts it never exceeds the pool; the slot one past the pool stays available; the scan stays in the table while timeouts are few |
| ConnectionPoolSafety.RoomAtTheLoopHead | src/server/multithread.c:238-246 | whenever the pool is not full at the loop head, enough available slots lie at or above the search index, so the search finds one |
| ConnectionPoolSafety.OneScanFreesAFullPool | src/server/multithread.c:181-246 | if the pool is full and some slot of it is no longer in use, this one scan ends with an available slot chosen, whatever the workers do meanwhile |
| ConnectionPoolSafety.TimeoutByVisit | src/server/multithread.c:194-218 | a scan that meets a slot in use cancels the live worker there, closes its descriptor and frees the slot exactly if its time is up, and never touches the counter or the search index |
| ConnectionPoolSafety.HungPoolRecovers | src/server/multithread.c:181-246 | a full pool whose worker hangs has a slot chosen in the next scan after the one that timed it out, whatever the workers do and if nothing was accepted between |
| ConnectionPoolSafety.EveryWorkerIsAccountedFor | src/server/multithread.c:187-192 | each spawned worker is exactly one of live in its slot, waiting to be joined, joined once or cancelled, and closed the descriptor accepted for it; cancelled only if a timeout fired |
| ConnectionPoolSafety.DescriptorsAreConserved | src/server/multithread.c:251-307 | without timeouts the open descriptors are exactly those in hand, those being served and those leaked by failed thread creation, without overlap or repetition |
| Acceptor.Server.WorkerStep | src/server/multithread.c:96-138 | a worker's close and its final mark on the slot, as the steps of the pool |
| Acceptor.Server.Interfere | src/server/multithread.c:96-141 | the workers' steps before one access: exactly those of the world's list that are possible when they come, in order |
| Acceptor.InterferenceHappens | src/server/multithread.c:96-141 | every list of worker steps that can happen from a state does happen in full, so no interleaving is lost |
| Acceptor.SoundMove | src/server/multithread.c:168-311 | every move of the acceptor, with the workers' steps before it, extends a run of the step system from the start |
| Acceptor.Server.VisitOne | src/server/multithread.c:184-218 | one slot of the scan: remembered, reaped and joined, or killed when its time is up |
| Acceptor.ScanMove | src/server/multithread.c:184-218 | a slot whose time is up or that is not in use is available after the scan looked at it, a slot in use in time is left as it is, and available slots stay available |
| Acceptor.Server.ScanPool | src/server/multithread.c:181-224 | the whole scan of a full pool makes exactly the moves the world leads it to, one test at the loop head among them, starts and loses no worker, and leaves every slot of the pool available if every time is up |
| Acceptor.Server.FindSlot | src/server/multithread.c:236-246 | the search makes exactly the moves the world leads it to, and a slot it yields is available |
| Acceptor.Server.AcceptInto | src/server/multithread.c:248-307 | the one move the world leads to: a new descriptor is open in the chosen slot and, if its thread starts, served by one new worker and counted, else recorded as leaked with slot and counter as before; on a failure or a retry nothing is gained or counted and the slot stays available; it stops exactly when accept fails |
| Acceptor.Server.StartThread | src/server/multithread.c:294-301 | thread creation and its failure, with the slot and the counter given back |
| Acceptor.Server.Iterate | src/server/multithread.c:168-311 | one turn of the endless loop makes exactly the moves the world leads it to, with one test at the loop head; while the pool is not full, a new descriptor whose thread starts gives exactly one more worker, serving that descriptor in a slot of the pool |
| Acceptor.Serve | src/server/multithread.c:146-316 | the server from its start makes exactly the moves the world leads it to, which are a run from the initial state, for as many turns as asked for unless it stops or the counter reaches 256, so every whole-run result above holds of the loop; where nothing is refused, each of the first turns up to the pool's size gains a worker |
| LuaValues.SetThenLookup | src/lua.c:160 | assigning a key in a Lua table changes that key and no other and keeps keys distinct; assigning nil removes |
| LuaValues.LuaState.Next | src/lua.c:162 | lua_next as the code relies on it: the entry after a key, or a Lua error if that very value, an integer or a float, is not a key of the table |
| LuaValues.NextEntry | src/lua.c:405-500 | a traversal step leaves the stack as it found it plus the next entry |
| RecordStream.FlattenConcat | src/lua.c:405-500 | the stream of a table is the streams of its parts in order |
| TableConversion.LuaToZtable | src/lua.c:405-500 | the table on top of the stack is appended to the stream as its flattening, up to the first key that is neither number nor string, and the stack is restored; numbers as lua_tointeger gives them |
| TableConversion.WriteEntry | src/lua.c:415-495 | one entry: the key as the number or the text up to its first NUL; true as "true", false as "false", a number as lua_tointeger gives it, a text up to its first NUL, another type as its name between three brackets; a nested table between its opening and closing records |
| TableConversion.WordsStored | src/lua.c:444-495 | what the two booleans, a float without an integer value and a value of another type are stored as |
| TableConversion.LuaCount | src/lua.c:343-373 | counts the entries at all depths and restores the stack |
| TableConversion.StreamFitsTwiceTheCount | src/lua/json.c:82-94 | the stream has one record per entry and one terminator per nested table, and so at most twice the count, which is what callers ask for |
| TableRebuild.ZtableToLua | src/lua.c:244-305 | the loop over the records with its array of table positions does what the rebuilding machine does, or stops where it stops |
| TableRebuild.RebuildsTheTable | src/lua.c:244-305 | a flattened table is rebuilt, leaving exactly one table on the stack with its keys and values as C stores them and the index shifts cancelled, exactly if its keys can be assigned, it is nested less than 128 deep and the Lua stack has room for it; otherwise the machine gets stuck |
| TableRebuild.RoomForTheDepth | src/lua.c:262-286 | two stack slots for each level of nesting and three more are enough, and one more than two for each level is needed |
| TableRebuild.GuaranteedRoom | src/lua.c:244-305 | the 20 slots Lua guarantees are enough for eight levels of nesting and never for ten |
| TableRebuild.CanonIsSameExactly | src/lua.c:405-500 | storing a table changes nothing that Lua's == can tell exactly if its numbers are integers that fit a C int, integral floats as values allowed, and its texts are non-empty and without NUL, at every depth |
| TableRebuild.CanonLookup | src/lua.c:244-305 | in the table that comes back every plain key has what its own entry came back as, and a key that was not there has nothing |
| TableRebuild.ScalarComesBackAs | src/lua.c:244-305 | what each kind of value comes back as under its key: booleans and other types as texts, an empty text not at all, integers as floats, a float without an integer value as zero |
| TableRebuild.RoundTripIsExact | src/lua.c:244-305 | for every table with number and text keys: writing and rebuilding it gives the same table, with integer values as floats, exactly under that condition, less than 128 deep and with room on the stack |
| TableRebuild.RoundTripKeepsFloatsOnly | src/lua.c:275-278 | it gives the identical table exactly if, besides, no value at any depth is an integer |
| TableMerge.LuaMerge | src/lua.c:107-169 | for two or more non-empty tables, any number of turns of the loop leaves the stack and the outcome the merging machine has after them: merged, returned 0, a Lua error, or still running; fewer values are left alone |
| TableMerge.MoveOrEnd | src/lua.c:148-165 | one turn at an entry, with the key of another type, the failed lua_next and the end of the table told apart |
| TableMerge.MoveEntry | src/lua.c:150-162 | one entry moves to the merged table and lua_next is asked with the copy of its key: a float for a number, a text cut at its first NUL |
| TableMerge.SurvivesExactly | src/lua.c:150-153 | the copy of a key is the key exactly if it is a text without NUL or a float without an integer value |
| TableMerge.MergeReturnsTheUnion | src/lua.c:107-169 | if every key is its own copy, the loop ends, with the merged table |
| TableMerge.MergeIsUnionBottomWins | src/lua.c:107-169 | the merged table has every key once, with the value of the table nearest the stack bottom that has it |
| TableMerge.FirstLostKeyEndsIt | src/lua.c:150-164 | the first key in traversal order that is not its own copy decides: an integer is a Lua error, a text with a NUL too unless its start is a key of the table, and a key of another type returns 0 |
| TableMerge.LaterKeyIsSkipped | src/lua.c:152-164 | if the start of that text is a later key of its table, the loop skips every entry up to and including that key |
| TableMerge.EarlierKeyLoopsForever | src/lua.c:152-164 | if the start of that text is an earlier key of its table, the loop never ends |
| TableMerge.MovesEverythingExactly | src/lua.c:107-169 | the loop ends after moving every entry of every table if and only if every key is its own copy |
| TableMerge.ArrayBelowTextIsAnError | src/lua.c:150-162 | merging {x=1} and {[1]="a"} is a Lua error |
| TableSlices.CopyRecord | src/loader.c:124-167 | one record copied into the new table |
| TableSlices.ShallowCopy | src/loader.c:171-188 | copies records until the depth it counts returns to zero |
| TableSlices.ShallowCopyIsTheTable | src/loader.c:55-188 | started just after a table's opening record, the copy is exactly that table's records, whatever surrounds it, and stops at its own terminator |
| TableSlices.TopTextIsTheField | src/loader.c:206-226 | looking a key up in a flattened table finds the text of the table's own entry, never one of a nested table |
| TableSlices.FieldTextIs | src/loader.c:206-226 | that field is the text of the first entry under the name up to its first NUL, a boolean's word, and nothing for an empty text, a number or a table |
| TableSlices.TableUnderKey | src/loader.c:102-120 | the records after a top-level key are exactly the table stored there and then the rest |
| Hosts.BuildHosts | src/configs.c:84-96 | the depth-counting walk over the hosts table, copying each host's records |
| Hosts.HostFromItsRecords | src/configs.c:37-58 | the host built from the records has the key as its name and, setting by setting, the text its own table holds under that setting's name |
| Hosts.HostsAreTheDeclaredOnes | src/configs.c:31-96 | the host list is exactly one host per text-keyed table directly in the hosts table, in order, whatever else the configuration holds |
| Hosts.Answering | src/configs.c:69-79 | the first host whose name or alias is the one asked for, an empty name answering nothing, and none only if there is none |
| Hosts.FindHost | src/configs.c:65-80 | the host that is the first in the list to answer the part of the name before a colon, and none exactly if none does |
| Hosts.BareName | src/configs.c:66-68 | the part of a host name before its first colon, or all of it |
| RouteResources.ReservedWords | src/filters/filter-lua.c:109-119 | which keys the lists of reserved words contain, as the walker reads them |
| RouteResources.HasWord | src/filters/filter-lua.c:191-205 | whether a list has a word |
| RouteResources.IsReserved | src/filters/filter-lua.c:184-208 | the handled keys and no others are reserved |
| RouteResources.MvcList.Visit | src/filters/filter-lua.c:231-280 | one record changes depth, current set and list as the collector does |
| RouteResources.MvcList.VisitAll | src/filters/filter-lua.c:231-280 | a stream of records, one after the other |
| RouteResources.NestedIsIgnored | src/filters/filter-lua.c:256-279 | the records of a nested route add nothing and leave the depth as it was |
| RouteResources.CollectsExactlyTheRoute | src/filters/filter-lua.c:231-280 | over a route's own records the collector ends outside the route with exactly the resources of the route's immediate handled keys, in order, which of the groups there were, and the content type set last |
| RouteResources.ResourceOfText | src/filters/filter-lua.c:109-280 | a text under model or models asks for that file of app, under query of sql, under view or views of views, with their extensions; under content-type it sets the type; under any other key nothing |
| RouteResources.ListUnderKey | src/filters/filter-lua.c:256-279 | a list under a handled key asks for the resources of that key's group |
| RouteResources.ResourcesOfList | src/filters/filter-lua.c:256-279 | those are one file for each text of the list, in order |
| HttpRead.HeaderEnd | src/ctx/ctx-http.c:129-130 | the offset of the first blank line, or -1 if there is none |
| HttpRead.Connection.ReadHeader | src/ctx/ctx-http.c:94-136 | for every schedule the preamble holds what arrived and the header's end is found when it is there; a failure, a timeout or a close is the work of the last call |
| HttpRead.Connection.NotReady | src/ctx/ctx-http.c:228-250 | a read that delivered nothing ends the request on a failure or when the idle time is over, and otherwise leaves time to the deadline |
| HttpRead.Connection.MoveExcess | src/ctx/ctx-http.c:197-216 | the body buffer starts with exactly the bytes that came with the header |
| HttpRead.Connection.ReadPiece | src/ctx/ctx-http.c:223-254 | one read of the body loop: a piece more, nothing yet, or the end |
| HttpRead.Connection.ReadPieces | src/ctx/ctx-http.c:223-254 | the body loop: fills the buffer with the next bytes in order; a timeout only after nothing came for the idle time, which starts again with every piece |
| HttpRead.Connection.ReadBody | src/ctx/ctx-http.c:207-263 | for every schedule that does not cut it short the buffer is the body; terminates by bytes still needed and then time to the idle deadline |
| HttpRead.Connection.ReadContent | src/ctx/ctx-http.c:160-275 | the outcome is the same whether the body fits the preamble or spills into its own buffer |
| HttpRead.Connection.ReadRequest | src/ctx/ctx-http.c:76-276 | for every fragmentation that is not cut short, the stage, the status and the body are what the bytes alone determine; a timeout is status 408, a failure ends the request, and an early close is processed if the header was complete and status 500 if not |
| HttpRead.ReadingByParts | src/ctx/ctx-http.c:129-273 | what the bytes determine: a request without a body is ready at once, one with a body exactly when all of it is there, and a bad header, a body over 8 MB or a refused body is status 500 |
| HttpRead.ReadingWithoutHeader | src/ctx/ctx-http.c:94-136 | without a blank line in the preamble the request stays unfinished until 2048 bytes are there and is then status 500 |
| HttpRead.ProperRequestIsItsBody | src/ctx/ctx-http.c:160-172 | a header that fits the preamble followed by exactly its announced body is read as that body |
| HttpWrite.SendMessage | src/ctx/ctx-http.c:298-343 | what was sent is always a prefix of the message; the loop ends by itself only when all of it was |
| HttpWrite.SendFile | src/ctx/ctx-http.c:347-378 | what was sent is always a prefix of the file; the loop ends by itself at the announced length |
| HttpWrite.WriteResponse | src/ctx/ctx-http.c:281-433 | for every schedule the peer gets a prefix of header and file or of the message; success is the announced length sent, and it fails only at a send that failed or came when the write time was over |
| HttpWrite.Deliver | src/ctx/ctx-http.c:281-433 | a write succeeds unless a send failed or came too late; where no send accepts zero bytes, success means the whole payload once and in order, and anything else a prefix |
| HttpWrite.OverdueIs | src/ctx/ctx-http.c:325-376 | a header is too late from the write timeout on, what follows only a second later |
| ServerLifecycle.Judgement | src/server/server.c:99-128 | a request is served exactly by the first host that answers its name if that has a supported filter and a usable directory; otherwise the status is 400 exactly without a host header, 404 exactly if no host answers, and 500 with what is wrong with that host |
| ServerLifecycle.CheckFilter | src/server/server.c:36-45 | whether a filter is registered |
| ServerLifecycle.Process | src/server/server.c:89-139 | the response is the chosen host's filter's, given that host, the path and the body, or the error page of the first check that fails, and the stage moves on in any case |
| ServerLifecycle.AnswerByParts | src/server/server.c:89-139 | the answer due to a whole request, with or without a body, is that filter's or that page |
| ServerLifecycle.AnswerToBadRequest | src/ctx/ctx-http.c:138-273 | a header or a body that is refused, or a body over 8 MB, is answered by the page of status 500 |
| ServerLifecycle.Obtain | src/server/server.c:177-200 | reading and processing: uncut, the response found is the answer the bytes determine and processing happens exactly for a request that was read; where no call falters, nothing but a request that is unfinished is cut short |
| ServerLifecycle.PhasesInOrder | src/server/server.c:170-223 | prepared first, then read, and released last, each once; written unless reading failed |
| ServerLifecycle.Respond | src/server/server.c:170-223 | after a successful pre every run ends at the last stage and stages never go back; uncut, the peer gets the answer its bytes determine, or a prefix of it, and processing happens exactly for a request that was read; what is due is written unless a send fails or is late, and where no call falters all of it arrives |
| Base64.Letter | src/lua/enc.c:21-24 | the encoder's table is undone by the decoder's |
| Base64.LetterOfItsDigit | src/lua/dec.c:21-38 | the decoder's table is undone by the encoder's |
| Base64.EncoderBits | src/lua/enc.c:39-42 | the encoder's shifts and masks are the four sextets of the 24-bit group |
| Base64.Encode | src/lua/enc.c:31-69 | an encoding has four characters for each three octets begun |
| Base64.EncodeText | src/lua/enc.c:31-69 | the output is the encoding of section 4 of RFC 4648 and its NUL, filling the allocation exactly |
| Base64.EncodeRest | src/lua/enc.c:47-66 | the padded last group |
| Base64Decode.RawDecode | src/lua/dec.c:41-100 | the decoder's outcome; on every accepted text the length returned is the number of bytes written, and on every text the writes stay in the first 3 * (strlen / 4 + 1) bytes |
| Base64Decode.AcceptedExactly | src/lua/dec.c:41-100 | which texts are accepted, skipped characters included: a whole number of groups without padding, or a first padding character that ends a group, alone or before another; and how many octets each gives |
| Base64Decode.DecodeText | src/lua/dec.c:106-123 | an accepted text comes back whole, a refused one as nothing |
| Base64Decode.DecodeOfEncode | src/lua/dec.c:41-123 | decoding an encoding gives back the octets, for every octet string and whatever the carry buffer held |
| Base64Decode.EncodingsAreCanonical | src/lua/enc.c:31-69 | every encoding is canonical |
| Base64Decode.CanonicalIsAnEncoding | src/lua/enc.c:31-69 | every canonical text is an encoding |
| Base64Decode.EncodeOfDecode | src/lua/dec.c:41-123 | a text is accepted and encodes back to itself exactly if it is canonical |
| Walker.FirstDelimiter | vendor/zwalker.c:139-142 | the first delimiter, or the end |
| Router.WalkPieces | src/router.c:163-171 | the pieces of an either or id segment, each with its delimiter |
| Router.BuildElement | src/router.c:147-189 | the element of one segment |
| Router.BuildUrimap | src/router.c:123-208 | the compiled form of a URI, one element per segment |
| Router.CompareUrimaps | src/router.c:211-282 | the elements agree in number and each accepts its segment |
| Router.RouteResolve | src/router.c:294-331 | one route against a URI, the root routes apart |
| Router.MatchIsOfSegments | src/router.c:294-331 | the special cases of the root agree with the comparison of segments, since they are exactly the URIs without one |
| Router.DigitsAreListed | src/router.c:50-51 | the digits of a number id are the ten listed characters |
| Router.LettersAreListed | src/router.c:54-57 | the letters of a string id are the listed characters |
| Router.RouteComplexResolve | src/router.c:336-387 | the first route of the list that matches, and none only if none does |
| RouteMeaning.OptionsCompile | src/router.c:157-171 | the options of an either segment compile to themselves, each with the delimiter after it |
| RouteMeaning.ElementRule | src/router.c:221-279 | what each kind of compiled segment accepts, for every way of writing it |
| RouteMeaning.OtherTypesTakeDigits | src/router.c:173-181 | an id with any type that is neither number nor string takes digits |
| RouteMeaning.MatchesByRule | src/router.c:123-331 | a route matches a request exactly if the segment counts agree and every segment satisfies its rule |
| RouteMeaning.OddRouteRefusesItsSample | src/router.c:211-282 | every route that is not plain, for requests that end in a slash or for those that do not, refuses such a request it is written for |
| RouteMeaning.TakenAsMeantExactlyIfPlain | src/router.c:123-331 | a route matches exactly the requests it is written for, of those with a final slash or of those without, if and only if it has no list of options, typed ids only at its end and only for requests without the slash, and after a final literal the same slash as the request |
| RouteMeaning.TakenEitherWayExactly | src/router.c:123-331 | it does so with and without the final slash if and only if it has no list of options and no typed id and does not end in a literal |
| RouteMeaning.ListedOptionIsRefused | src/router.c:225-244 | a list of options refuses every one of its options, with any final slashes |
| TemplateReplace.Choose | src/cli/cli.c:142-146 | the value of the last setting whose key the placeholder starts with, and what was there before if there is none |
| TemplateReplace.LookupIs | src/cli/cli.c:142-146 | what is looked up is the value of the last setting whose key the text starts with, and nothing exactly if there is none |
| TemplateReplace.Arguments | src/cli/cli.c:107-116 | the placeholders db, fqdn and title stand for the database, domain and title given |
| TemplateReplace.LookupStopsAtTheQuote | src/cli/cli.c:143 | comparing with the bytes from the placeholder on is comparing with the placeholder |
| TemplateReplace.Replace | src/cli/cli.c:130-154 | the chunks, read from the overwritten template, join to the template with every placeholder replaced by its quoted value, and end in a terminator |
| TemplateReplace.WriteOut | src/cli/cli.c:190-192 | writes all chunks up to the terminator |
| TemplateReplace.FillTemplate | src/cli/cli.c:175-192 | what is written for a template is its substitution |
| TemplateReplace.SubstituteReplacesAPlaceholder | src/cli/cli.c:136-151 | text before a placeholder stays, the placeholder becomes its looked-up text between quotes, the rest is substituted in turn |
| TemplateReplace.SubstituteReplacesByTheValue | src/cli/cli.c:136-151 | that text is the value of the last setting whose key the placeholder starts with |

## Left out

- Acceptor.Serve: stops being modelled when the counter reaches 256, where the scan would leave the slot table; pool sizes are 1 to 255 and the interrupt flag is 0.
- Acceptor.Server.VisitOne: the look at a slot and what it leads to are one step, and a cancelled worker takes no further step.
- ConnectionPoolSafety.DescriptorsAreConserved: says nothing once a timeout has fired, because the code closes a descriptor its worker may also close.
- TableConversion.LuaToZtable: floats are real numbers, without NaN, infinities or rounding; failure to grow the Lua stack, and what is left on the stack when a nested table has a bad key.
- TableConversion.LuaCount: the code does not ask for the two stack slots it uses for each level of nesting; the model takes them as there.
- TableRebuild.ZtableToLua: what the code does once it is stuck: a nil key, an overflowing key, or a write outside its array of positions or the Lua stack.
- TableMerge.LuaMerge: values on the stack that are not tables and empty tables, which the loop leaves half handled; float keys outside the range of integers to which a large integer could round.
- RecordStream.FlattenConcat: the record table's hashing, and running out of the room it was created with.
- Hosts.BuildHosts: settings whose value is empty or not a text, which the loader copies from a null pointer.
- Hosts.FindHost: host names longer than its 2048-byte buffer.
- RouteResources.CollectsExactlyTheRoute: routes with a number or a nested table of tables under a handled key, the reserved word "queries" that is never handled, and resource names longer than their buffers.
- HttpRead.Connection.ReadRequest: bodies longer than announced and pipelined requests, on which the first body read asks for a fixed 4096 bytes; failure to allocate.
- HttpWrite.WriteResponse: a send of the file's header that accepts zero bytes is reported apart, because the file is then sent after a part of the header.
- ServerLifecycle.Respond: the filters, the file system checks, the HTTP parsers and the rendering of error pages are parameters; the directory rewritten during a check is not modelled.
- Base64Decode.EncodeOfDecode: of texts with skipped characters only acceptance and the number of octets are claimed, not which octets.
- Router.RouteResolve: requests with a segment that starts with ?, *, { or :, URIs that do not start with a slash, and routes and requests that both have no segment, on which the comparison follows a null pointer or an early return; segments longer than the 512 and 1024 byte buffers.
- Router.BuildUrimap: models src/router.c with vendor/zwalker.c; the build compiles vendor/router.c in its place.
- TemplateReplace.Replace: placeholders with an unknown key, which leave what an earlier call stored, and templates with more than 62 marks, which overrun the chunk table.
- The TLS context, SQLite and sessions, the file system, the outbound HTTP client, logging, argument parsing, privileges and PID files: foreign calls and plumbing.
- The chunked-body extraction of src/lua/http.c and the route id extraction of init_lua_routes: not in use or not computing what they are named for.
- MIME, random and string helpers, memory release and allocation failure: only easy members.
