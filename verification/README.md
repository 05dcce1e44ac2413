# A model of netframework

netframework is a small C++ client/server framework. A call on a remote object is printed as text, put
into a packet, sent, unpacked by a session, routed to a handler, run on that handler's own thread, and
answered the same way. This project models the four parts of that path that carry the weight, and proves
what they promise, or exactly when they keep it.

**Text codec and remote calls.** `Values` has the values that travel (`int`, `std::string`, vectors,
classes) and their types. `Printing` and `Reading` are the two directions, as methods on streams and as
functions. `Tokenizer` is `nextToken`; `Brackets`, `Escaping`, `Decimal` and `Framing` are what its
correctness rests on. `RoundTrip` is the codec law. `OpenText`, `RemoteCalls` and `Signatures` take the
law to whole calls, `FlatRecords`, `RmiPackets` and `Dispatch` to packets and handlers, and
`StringLiterals` to the compile-time test that says which parameters come back.

**Worker thread.** `WorkerThreads` is a transition system: program counters for the worker, its timer and
any number of other threads, the mutex, the wait on the condition variable, the queue, and histories. One
step is one access to shared state, and all interleavings count. `WorkerSafety`, `Shutdown` and
`Confinement` are about every reachable state of it, `Posting` about runs and the actions in them.

**Packets and sessions.** `CoreProto` is the framing, `SessionReads` and `SessionWrites` are the two halves
of `SessionImpl`, driven by arbitrary reads and write completions. `Transport` joins them to the handlers.

**Poll server.** `PollServer` is the receiving side of a connection.

Every imperative operation is a method on a class or with a loop, proved to compute a function of the same
text or state; the theorems are about those functions. Reads, write completions, sleeps, and the handler at
the other end of `sendAndWait` are parameters or arbitrary steps.

## What the code does, where one might expect otherwise

- `make_call` and `serialiseAnswer` take `out.str()` while the `ObjectSer` is alive, so the closing brace is
  missing and `ObjectDeser` cuts off the last character of the last field instead. A remote call therefore
  refines a local one if and only if the rightmost leaf of the last argument, and of the last value of the
  answer, is a string, an empty list or an empty object, and no by-reference variable holds a non-empty list
  at the call (`RemoteCalls.RemoteCallRefinesLocalExactly`). The last two conditions can fail together and
  hide each other in one way, which `OpenText.LossHides` spells out and the theorem includes. With an `int`
  in last place no call arrives as it was made: 12 arrives as 1, and 5 raises an exception
  (`RemoteCalls.LastIntArrives`). From the
  types alone: a remote function can be relied on, whatever it does and whatever clean values it is given, if
  and only if its signature is safe (`Signatures.SignatureRefinesExactly`).
- Reading a list appends to the variable. Reading a string does not undo the escaping.
- `nextToken` ignores quotes while it counts brackets; a string that is a list element is tokenized twice.
  `Clean` is therefore wider than "no brackets at all": brackets inside a string do no harm when they are in
  balance, and a list element may be one bracketed text with commas in it.
- At the end of its stream an object may leave braces open: RMI packets need that their strings close no
  more braces than they opened, not that they balance.
- `fetchData` on a vector gives the empty string for every vector longer than the header, so a payload
  arrives if and only if its packet fits the read buffer (`SessionReads.PayloadArrivesExactly`).
- `isPacketComplete` on the read buffer looks at stale bytes: a small packet is taken for complete as soon as
  its header is there, with stale bytes in place of those that are missing
  (`SessionReads.PartOfSmallPacketExactly`), and a piece of the packet that was received last makes the session
  hand that packet off again (`SessionReads.PartOfSmallPacketIsReplayed`). Bytes behind a packet in the same
  read are dropped (`SessionReads.BytesBehindPacketAreDropped`).
- When only the first magic byte has been collected the second is never checked again. If the next byte is
  wrong, the session is jammed: it collects for ever and hands nothing off. That is the only way to get there
  (`SessionReads.RunJamsExactly`), and in every other run the collected bytes stay below the size of the largest
  packet (`SessionReads.BufferStaysBounded`).
- `pkgSize` is uninitialised in `processRead` and is compared when the header is not complete; the model
  takes whatever value it has from the arrival.
- `handleWrite` swaps the buffers without clearing, so bytes are sent again: after two blocks and two
  completions the first block goes out a second time (`SessionWrites.FirstBlockIsRepeated`). Each byte goes out
  once exactly in the runs with at most one completion and no send to a session that is idle after it
  (`SessionWrites.RepeatsExactly`). And the session comes to rest exactly if no non-empty block was ever sent
  while a write was in flight; otherwise it never stops writing (`SessionWrites.ComesToRestExactly`).
- A worker can be asleep with a message in the queue (`WorkerSafety.AsleepOnFullQueue`), exactly while some
  producer is between its push and its notification, with the lock in its hand (`WorkerSafety.NoLostWakeup`).
- `HandlerBase::sendAnswer` calls a callback that no code sets. `sendAnswer` is virtual; a handler that does
  not override it raises an exception on every call that it serves, and its current caller stays set
  (`Dispatch.AnsweredExactly`).
- Only the three-parameter `serialiseAnswer` exists, so of the `REGISTER_RMI` macros only the one for three
  parameters can be instantiated. The model allows any number of parameters from one on.

## Model

| member | source | states |
|---|---|---|
| `Escaping.Find` | lib/serialisation.cpp:6-6 | the least match at or after the position, and none only when there is none |
| `Escaping.ReplaceInString` | lib/serialisation.cpp:3-11 | the replacement loop ends for every non-empty search string, also when the replacement contains it, and equals left-to-right replacement of non-overlapping matches |
| `Escaping.EscapeIsIdentity` | lib/serialisation.cpp:19-23 | escaping leaves a string as it is if and only if it has no quote, and lengthens it otherwise |
| `Decimal.StoiOfToString` | lib/serialisation.cpp:13-17 | every 32-bit number is read back from its decimal text |
| `Decimal.StoiOfChopped` | lib/serialisation.cpp:76-81 | decimal text that has lost its last character is never read as the number |
| `Decimal.StoiOfNumeral` | lib/serialisation.cpp:76-81 | text of blanks, at most one sign and digits is read as the number that these denote, whatever follows, or is out of range exactly if that number has no 32 bits |
| `Decimal.StoiRejectsExactly` | lib/serialisation.cpp:76-81 | text is rejected if and only if it does not begin that way |
| `Brackets.StaysIffPrefixesOpen` | lib/serialisation.cpp:45-52 | a scope stays open through a text if and only if every non-empty prefix has depth at least one |
| `Brackets.ScopeLengthOfClosed` | lib/serialisation.cpp:45-52 | otherwise the scan stops inside the text, just behind the closing bracket that ends the scope |
| `Tokenizer.NextToken` | lib/serialisation.cpp:35-74 | every token taken before the end was seen consumes a character or sets eof, and eof once set stays set |
| `Tokenizer.InStream.ReadToken` | lib/serialisation.cpp:35-74 | the method on the stream returns the specified token and leaves the specified rest and eof flag |
| `Tokenizer.InStream.ScanScope` | lib/serialisation.cpp:45-52 | the depth-counting loop takes exactly the characters up to depth zero or the end, and one more is in hand |
| `Tokenizer.InStream.ReadQuoted` | lib/serialisation.cpp:55-65 | the backslash-aware loop stops at the first quote with no backslash before it |
| `Tokenizer.InStream.ReadPlain` | lib/serialisation.cpp:66-72 | an unquoted token goes up to the comma or the end |
| `Framing.ScopeFraming` | lib/serialisation.cpp:40-54 | bracketed text in front of a further field or the end is taken whole if and only if its body keeps the scope open and, unless it is last, balances; then the stream is at the next field |
| `Framing.QuoteFraming` | lib/serialisation.cpp:55-65 | a printed string is tokenized to its escaped form if and only if it does not end in a backslash; otherwise the token runs over the closing quote |
| `Framing.StringComesBackExactly` | lib/serialisation.cpp:19-23 | a string printed and tokenized comes back itself if and only if it has no quote and no final backslash |
| `Framing.OpenQuoteFraming` | lib/serialisation.cpp:55-65 | at the end of the text the closing quote is not needed: every string comes back escaped |
| `Framing.PlainFraming` | lib/serialisation.cpp:66-72 | unquoted text without comma is taken exactly, whatever field follows |
| `Framing.ScopeBeforeAnything` | lib/serialisation.cpp:46-53 | behind a balanced bracketed token one character is lost, whatever it is, and then one comma is skipped |
| `Framing.QuoteBeforeAnything` | lib/serialisation.cpp:57-64 | behind a printed string only a comma is skipped |
| `Framing.PlainBeforeComma` | lib/serialisation.cpp:67-71 | behind other text exactly one comma is taken, also when the text is empty |
| `Values.MergeReplacesExactly` | lib/serialisation.h:92-98 | reading into a variable replaces its value if and only if no list anywhere in it has elements |
| `Values.MergeAllReplacesExactly` | lib/serialisation.h:116-126 | the same for a row of fields |
| `Printing.ObjectSer.constructor` | lib/serialisation.cpp:25-29 | the opening brace follows what was in the stream, and no field has been written |
| `Printing.ObjectSer.Field` | lib/serialisation.h:58-68 | after each field the text is the brace and all fields so far with commas between them |
| `Printing.ObjectSer.Close` | lib/serialisation.cpp:31-33 | the closing brace completes the text of the object |
| `Printing.PrintFieldsSnoc` | lib/serialisation.h:24-28 | the first-flag loop: printing one more value adds a comma exactly when there was one before |
| `Printing.Serialize` | lib/serialisation.h:45-50 | for a value of any type and depth the stream grows by exactly its printed form |
| `Printing.SerializeSequence` | lib/serialisation.h:19-31 | the loop with the first-flag prints the list and nothing else |
| `Reading.FromTokenIsTyped` | lib/serialisation.h:109-114 | whatever the text, a value that is read has the type asked for |
| `Reading.ReadElemsAreTyped` | lib/serialisation.h:92-98 | and so does every element that a list gets |
| `Reading.ReadFieldsGives` | lib/serialisation.h:121-125 | a row of fields is read as given values if and only if the first token gives the first and the stream behind it gives the others |
| `Reading.Deserialize` | lib/serialisation.h:103-114 | the stream methods end for every text and agree with the specification in value, in rest of stream, in the exception raised, and in what the variable holds after it |
| `Reading.DeserializeSequence` | lib/serialisation.h:84-101 | the elements are appended to what the vector held, with the length test as it is in the code; after an exception those in front of it have been |
| `Reading.PushElements` | lib/serialisation.h:92-98 | the eof-driven loop ends on every text and pushes exactly the specified elements; at an exception the vector holds those in front of the element that raised it |
| `Reading.DeserializeObject` | lib/serialisation.cpp:89-97 | field after field is read from the inside of the object's token into the variables given |
| `Reading.ReadInto` | lib/serialisation.h:121-125 | successive reads stop at the first exception; the variables behind it keep their value |
| `Reading.LeftIsRead` | lib/serialisation.h:109-114 | what a variable holds after a read is, without an exception, the value read |
| `Reading.FieldsLeftByFault` | lib/serialisation.h:121-125 | an exception in one field: each field in front of it holds what was read, each behind it what it held, and so does the failing one if it is an int |
| `Reading.ElemsPushedByFault` | lib/serialisation.h:92-98 | an exception in one element: exactly the elements in front of it have been pushed |
| `Reading.FaultIsOfFirstBadInt` | lib/serialisation.cpp:76-81 | for every type and text a read raises an exception if and only if some text that is read as an int is bad, and it is that of the first such text |
| `RoundTrip.PlainStringIsClean` | lib/serialisation.cpp:47-61 | strings without quote, bracket and final backslash are clean |
| `RoundTrip.PlainValueIsClean` | lib/serialisation.h:20-31 | values of 32-bit numbers and strings without quotes, brackets and final backslash, without commas in lists, are clean at any depth |
| `RoundTrip.PrintIsNeutral` | lib/serialisation.h:20-31 | printed clean values balance both kinds of bracket and never close a scope they did not open |
| `RoundTrip.FieldFraming` | lib/serialisation.cpp:35-74 | for every clean value, at the end or before a comma and another field, `nextToken` returns exactly its token and leaves the stream at the next field |
| `RoundTrip.ReadBack` | lib/serialisation.h:84-101 | a clean value of any type is read into any variable, whatever field follows: lists appended, everything else overwritten, the stream at the next field |
| `RoundTrip.ElemsReadBack` | lib/serialisation.h:84-101 | on the printed form of a non-empty list of clean elements the loop runs once per element and gives exactly the elements |
| `RoundTrip.FieldsReadBack` | lib/serialisation.h:116-126 | the fields of an object are read back one by one and the stream is then at its end |
| `RoundTrip.CodecRoundTrip` | lib/serialisation.h:109-114 | for every type and every clean value of it, at any depth, reading the printed text into a fresh variable gives the value, empty strings, lists and objects included |
| `RoundTrip.RetokenizesExactly` | lib/serialisation.h:93-96 | a quote-free string is the same when tokenized again if and only if it has no comma, or starts with a bracket that its last character closes |
| `RoundTrip.StringsAreRetokenized` | lib/serialisation.h:92-98 | a row of clean strings of any length is read as exactly those strings, each tokenized once more |
| `RoundTrip.ListedStringsExactly` | lib/serialisation.h:84-101 | a list of clean strings of any length survives if and only if each of them has no comma or is one bracketed text |
| `OpenText.ChoppedFraming` | lib/serialisation.cpp:35-74 | the token made of a printed value that has lost its last character, alone and when tokenized again as an element |
| `OpenText.ChoppedElemsExactly` | lib/serialisation.h:92-98 | elements whose text has lost its last character come back if and only if the rightmost leaf of the last one is no int |
| `OpenText.ChoppedListCount` | lib/serialisation.h:87-99 | a list whose bracket is missing appends as many elements as were printed or raises an exception, and of a list of one digit appends nothing |
| `OpenText.ChoppedReplacesExactly` | lib/serialisation.cpp:89-97 | a variable ends up with a clean value of any type whose text was cut if and only if the rightmost leaf is no int and the variable held no list with elements, or the one hidden loss applies |
| `OpenText.ChoppedFieldsReplace` | lib/serialisation.cpp:89-97 | the same for a row of fields without its closing brace |
| `OpenText.HiddenLossNeedsBoth` | lib/serialisation.h:87-97 | the hidden loss takes both a cut number and a variable with elements in a list |
| `FlatRecords.StringFieldExactly` | lib/serialisation.cpp:55-65 | a string field in front of others, whole or cut before a brace, comes back if and only if it is whole, has no quote and no final backslash |
| `FlatRecords.FlatFieldsExactly` | lib/serialisation.h:116-126 | a row of strings and ints, whole or cut before a brace, comes back if and only if it is whole and every string is quotable |
| `FlatRecords.FlatRecordExactly` | lib/serialisation.cpp:89-97 | an object of strings and ints round-trips if and only if every string is quotable and the braces never close it early |
| `FlatRecords.FlatRowStays` | lib/serialisation.cpp:47-52 | only the braces inside the strings count towards closing such an object |
| `StringLiterals.EqualIsEquality` | lib/consthelpers.hpp:25-29 | the recursive comparison is equality of strings |
| `StringLiterals.ContainsExactly` | lib/consthelpers.hpp:55-57 | `contains` holds if and only if some offset matches |
| `StringLiterals.FindLiteralIsLeast` | lib/consthelpers.hpp:59-63 | `find` gives the least matching offset, and the all-ones value if and only if there is none |
| `StringLiterals.IsRetvalExactly` | lib/retvalserialisation.h:6-9 | a parameter is returned if and only if its type text has an ampersand and no occurrence of const |
| `RemoteCalls.FieldsTextExactly` | lib/retvalserialisation.h:93-103 | text taken before the closing brace is there comes back into given variables exactly under the condition of the cut row |
| `RemoteCalls.ArgumentsArriveExactly` | lib/handlerbase.h:39-45 | clean arguments arrive as passed if and only if the rightmost leaf of the last one is no int |
| `RemoteCalls.AnswerArrivesExactly` | lib/retvalserialisation.h:59-67 | the caller gets result and references, and non-reference variables keep their value, if and only if the answer replaces what the variables held |
| `RemoteCalls.AnswerReplacesWhen` | lib/retvalserialisation.h:59-67 | if the answer ends in no int that is when no by-reference variable held elements; if none did, it is when the answer ends in no int |
| `RemoteCalls.RemoteCallRefinesLocalExactly` | lib/remotecall.h:43-53 | for every function and all clean values: the function sees exactly the arguments and the caller sees exactly the local result and by-reference outputs if and only if arguments and answer end in no int and no by-reference variable holds elements, or the last two hide each other |
| `RemoteCalls.LastIntNeverArrives` | lib/remotecall.h:45-48 | no call whose last parameter is an int reaches its function with the arguments passed |
| `RemoteCalls.LastIntArrives` | lib/remotecall.h:45-48 | whatever comes before it, a last argument that is an int of two digits or more arrives without its last digit, and one of one digit makes the call raise an exception |
| `RemoteCalls.ServeFaultsExactly` | lib/handlerbase.h:84-92 | for every text the handler raises an exception if and only if some text that it reads as an int is bad, that of the first |
| `RemoteCalls.CallFaultsExactly` | lib/remotecall.h:43-53 | and the caller if and only if the handler does or some such text of the answer is bad |
| `RemoteCalls.OnlyReferencesChange` | lib/retvalserialisation.h:6-29 | a variable whose type text has no ampersand, or has const, keeps its value in every call, whatever it comes to; locally the others hold what the function left in them |
| `RemoteCalls.VarsLeftExactly` | lib/retvalserialisation.h:59-67 | the caller's variables are as they were if the call fails before its answer's parameters are read; then those returned hold what reading them as fields leaves, up to the first exception |
| `RemoteCalls.AnswerText` | lib/retvalserialisation.h:93-103 | the answer on the wire: the result first, then the references in the order of the parameters |
| `Signatures.SafeTypeExactly` | lib/serialisation.cpp:89-97 | the test on a type holds if and only if no clean value of it, or none with empty lists, ends in an int |
| `Signatures.GoodCallExactly` | lib/remotecall.h:43-53 | a call with clean values of the right types and no elements in by-reference variables comes out right if and only if neither the last argument nor the last value of the answer ends in an int |
| `Signatures.SafeSignatureRefines` | lib/handlerbase.h:82-93 | on a safe signature every such call is as good as local, whatever the function |
| `Signatures.SignatureRefinesExactly` | lib/remotecall.h:74-78 | every such call, for every function, refines the local one if and only if the types of the last parameter and of the last value of the answer are safe; a by-reference list in last place counts as safe on the way there |
| `RemoteCalls.WriteFields` | lib/remotecall.h:45-48 | the text taken from the stream is the fields behind an opening brace, without the closing one |
| `RemoteCalls.HandleRmi` | lib/handlerbase.h:84-92 | the registered lambda, on streams, computes the specified answer or raises the specified exception |
| `RemoteCalls.CallRemote` | lib/remotecall.h:43-53 | `make_call`, on streams, computes the specified reply or raises the specified exception, and leaves the caller's variables as specified in both cases |
| `RemoteCalls.OptionalDeserialise` | lib/retvalserialisation.h:15-29 | only by-reference variables are read, in order, up to the first exception; the others keep their value |
| `RmiPackets.PacketRoundTripExactly` | lib/rmipacket.h:11-21 | a packet decodes to itself if and only if its strings have no quote and no final backslash and, one after the other, never close more braces than they opened |
| `RmiPackets.PacketText` | lib/rmipacket.h:11-15 | the packet on the wire: name, signature, number, data, in this order |
| `RmiPackets.QuotesComeFromStrings` | lib/serialisation.cpp:19-23 | printed text contains a quote if and only if the value contains a string |
| `RmiPackets.CallDataIsQuotable` | lib/rmipacket.h:11-15 | the text of clean arguments can be a data field if and only if it is string-free, and it never closes the packet early |
| `RmiPackets.NestedCallDecodesExactly` | lib/rmipacket.h:11-21 | a packet with clean names that carries an argument object decodes with all four fields equal if and only if the arguments contain no string at any depth |
| `RmiPackets.NestedArgumentsExactly` | lib/handlerbase.h:39-45 | the handler reads the arguments sent from closed text always, from `make_call` text if and only if the last one ends in no int |
| `RmiPackets.RmiPacket.SerializeTo` | lib/rmipacket.h:11-15 | the packet is printed with its four fields in order |
| `RmiPackets.RmiPacket.DeserializeFrom` | lib/rmipacket.h:17-21 | the four fields are overwritten with the decoded packet; on an exception the two names have been overwritten, and the number and the data keep their value |
| `Dispatch.FirstRegistrationWins` | lib/handlermanager.cpp:9-14 | over any history of registrations a name is found if and only if it was registered, and under it the first handler that did so |
| `Dispatch.PacketReachesFirstHandler` | lib/handlermanager.cpp:16-32 | a decodable packet goes to the first handler registered under its name, with the signature and data sent |
| `Dispatch.NestedCallReachesHandler` | lib/handlermanager.cpp:16-32 | a packet that carries string-free arguments goes to that handler, and the handler reads the arguments sent: always from closed text, from `make_call` text if and only if the last one ends in no int |
| `Dispatch.LastRegistrationWins` | lib/handlerbase.h:82-93 | over any history of registrations at a handler a signature is found if and only if it was registered, and under it the last function registered, unlike the handlers of a manager |
| `Dispatch.Handler.SendAnswer` | lib/handlerbase.cpp:27-30 | the answer goes out once if the handler overrides `sendAnswer` or a callback is set, and raises an exception otherwise |
| `Dispatch.Handler.HandleCall` | lib/handlerbase.cpp:13-25 | from another thread the call is posted with its arguments as they are and nothing else changes; on the handler's own thread an unknown signature changes nothing, a known one sends the answer once, to the caller, and resets the current caller, and an exception of the arguments or of the missing callback leaves the current caller set |
| `Dispatch.Handler.RunPosted` | lib/threadedclass.h:84-91 | the oldest posted call runs on the handler's thread, is taken out of the queue, and is not posted again |
| `Dispatch.HandOverIsTransparent` | lib/threadedclass.h:84-91 | calls posted from another thread and then run give the same answers in the same order as calls made on the handler's own thread, up to the same exception |
| `Dispatch.HandlerManager.RegisterHandler` | lib/handlermanager.cpp:9-14 | null is ignored and a name that is taken stays with its handler |
| `Dispatch.NoClientHasCallback` | lib/handlermanager.cpp:22-25 | over any history of packets a client is known if and only if one of its packets reached a handler, and no client has a callback |
| `Dispatch.AnsweredExactly` | lib/handlerbase.cpp:27-30 | over any history of packets a call that names a registered signature is answered if and only if its arguments can be read and the handler overrides `sendAnswer` |
| `Dispatch.HandlerManager.HandlePacket` | lib/handlermanager.cpp:16-32 | only the handler named is touched: the call is posted to it, or run on its own thread, for the client that sent the packet; the known clients are those of the history |
| `CoreProto.NtohlOfHtonl` | lib/coreproto.h:15-29 | network byte order and back is the identity on 32-bit numbers |
| `CoreProto.BuildPacket` | lib/coreproto.h:15-29 | the packet is 78, 70, the size modulo 2 to the 32 with the most significant byte first, and the payload |
| `CoreProto.VectorCheckInNumbers` | lib/coreproto.h:38-47 | for every vector the verdict and the size variable, from the bytes 78, 70 and the four after them |
| `CoreProto.ArrayCheckInNumbers` | lib/coreproto.h:31-73 | the same for every buffer, with what is fetched from it |
| `CoreProto.SumDoesNotWrap` | lib/coreproto.h:44-45 | after the size check the 32-bit sum of size and header does not wrap |
| `CoreProto.CheckOfCut` | lib/coreproto.h:38-47 | the verdict and the size variable for any prefix of a packet and what follows it |
| `CoreProto.FramingIsExactUpToTheLimit` | lib/coreproto.h:38-47 | a packet is complete from its last byte on and not before, whatever follows, if and only if the payload is within the limit |
| `CoreProto.ArrayRecoversPacket` | lib/coreproto.h:49-73 | the array overloads recognise and recover a packet whatever bytes follow it in the buffer, and see that one that does not fit is not complete |
| `SessionReads.Session.Receive` | lib/netbase.cpp:83-86 | a read fills the front of the buffer and leaves the stale rest |
| `SessionReads.Session.ProcessRead` | lib/netbase.cpp:57-90 | the callback takes the buffers and the hand-offs from one specified state to the next |
| `SessionReads.OnReadInNumbers` | lib/netbase.cpp:57-90 | for every state and read, from the bytes alone: what is handed off, collected or dropped |
| `SessionReads.BufferKeepsStaleBytes` | lib/netbase.cpp:83-86 | after any run each byte of the read buffer is that of the last read that was long enough |
| `SessionReads.OnReadKeepsBufferInv` | lib/netbase.cpp:62-81 | whatever arrives over whatever stale bytes, `incBuffer_` never holds a complete packet, starts with 'N' if non-empty, and is emptied or grown by the chunk |
| `SessionReads.BufferHoldsWhatArrivedSinceEmpty` | lib/netbase.cpp:62-81 | in every run it is the concatenation of the chunks since it was last empty |
| `SessionReads.OnReadJamsExactly` | lib/netbase.cpp:66-81 | a read leaves the session jammed, with two or more collected bytes of wrong magic, if and only if the uninitialised size is within the limit and it was jammed before, or only 'N' had been collected and the chunk starts with another byte than 'F' |
| `SessionReads.RunJamsExactly` | lib/netbase.cpp:66-81 | a run from an empty buffer ends jammed if and only if some prefix of it leaves 'N' alone, the next read starts with another byte than 'F', and the uninitialised size is within the limit from then on |
| `SessionReads.BufferStaysBounded` | lib/netbase.cpp:66-81 | in every other run, whatever sizes are announced and however small the reads, fewer bytes are collected than the largest packet has |
| `SessionReads.WrongMagicJams` | lib/netbase.cpp:71-81 | a jammed session, while the uninitialised size is within the limit, adds every later chunk and hands nothing off |
| `SessionReads.OneByteReadJams` | lib/netbase.cpp:66-67 | a one-byte read over the stale start of a large packet, followed by a wrong byte, leads there |
| `SessionReads.LargePacketCollectedExactly` | lib/netbase.cpp:62-81 | however a large packet is cut into reads, all of it is collected and nothing handed off before its last read if and only if the stale bytes are right for its first read and the uninitialised size is within the limit until the header is complete |
| `SessionReads.LargePacketIsHandedOff` | lib/netbase.cpp:71-74 | and under that condition its last read hands it off once |
| `SessionReads.DeliveryIsHandedOff` | lib/netbase.cpp:57-90 | the reads of one packet end with exactly one hand-off and an empty buffer |
| `SessionReads.LargePacketPrefix` | lib/netbase.cpp:66-77 | until its last read the buffer for a large packet equals the chunks so far, and nothing is handed off |
| `SessionReads.OneHandOffPerPacket` | lib/netbase.cpp:57-90 | over whole runs one hand-off per packet, in order, small payloads exact |
| `SessionReads.PayloadArrivesExactly` | lib/coreproto.h:60-65 | a payload is handed off as sent if and only if it has at most 1018 bytes |
| `Transport.PacketsReachTheirHandlers` | lib/netbase.cpp:92-95 | over whole runs RMI packets of at most 1018 bytes, each read in one piece, are handed off in order as texts that go to the first handler registered under their name, with the signature and data sent, or nowhere if there is none |
| `SessionReads.PartOfSmallPacketExactly` | lib/netbase.cpp:63-64 | a first read of at least the header of a small packet hands off what arrived of the payload and stale bytes for the rest, so the payload is right if and only if the stale bytes equal the missing part |
| `SessionReads.PartOfSmallPacketIsReplayed` | lib/netbase.cpp:63-64 | any part of the packet received last, from none of it to all of it, is taken for the whole packet again |
| `SessionReads.BytesBehindPacketAreDropped` | lib/netbase.cpp:63-64 | a read that holds a small packet and more hands off the payload and drops the rest |
| `SessionReads.BytesBehindLargePacketAreDropped` | lib/netbase.cpp:71-74 | and so does the read that completes a large packet |
| `SessionReads.ShortStartExactly` | lib/netbase.cpp:62-69 | a first read shorter than the header starts the collection if and only if the stale bytes complete the magic and announce a packet that does not fit the read buffer |
| `SessionWrites.WritesNeverOverlap` | lib/netbase.cpp:97-121 | a write is in flight if and only if `outBufferProcessing_` is non-empty, a new one is started only when none is, and a send does not change the one in flight |
| `SessionWrites.RunKeepsInv` | lib/netbase.cpp:97-121 | every run conserves the bytes and repeats only what an earlier write carried |
| `SessionWrites.FirstTransmissionsAreTheBlocksInOrder` | lib/netbase.cpp:97-121 | over every run the first transmissions and then the waiting bytes are the blocks in call order, each byte once; all else in a write is an earlier write once more |
| `SessionWrites.BlockGoesOutPromptly` | lib/netbase.cpp:97-121 | a block is in the write started at once when idle, and otherwise in the one started at the next completion, with all blocks sent in between, in order |
| `SessionWrites.OnceBusyAlwaysBusy` | lib/netbase.cpp:109-116 | once both buffers hold bytes, a write is in flight ever after |
| `SessionWrites.BusyExactly` | lib/netbase.cpp:97-121 | a run leaves bytes in both buffers if and only if some non-empty block was sent while a write was in flight |
| `SessionWrites.ComesToRestExactly` | lib/netbase.cpp:97-121 | completions alone ever bring the session to rest after a run if and only if no non-empty block was sent while a write was in flight |
| `SessionWrites.RepeatsExactly` | lib/netbase.cpp:97-121 | no write of a run repeats anything if and only if at most one write was completed and no block, not even an empty one, was sent to a session that was idle after it |
| `SessionWrites.FirstBlockIsRepeated` | lib/netbase.cpp:109-116 | two blocks and two completions: the third write sends the first block again |
| `SessionWrites.Session.SendData` | lib/netbase.cpp:97-103 | the object's buffers and writes follow the specified step of a send |
| `SessionWrites.Session.WriteDone` | lib/netbase.cpp:105-121 | and that of a completion |
| `PollServer.ReceiveConserves` | lib/server.cpp:292-308 | one chunk is delivered or kept, whole and in order; delivered blocks are complete and a non-empty rest is not |
| `PollServer.RunConserves` | lib/server.cpp:292-308 | over every run and for any completeness test, delivered blocks and rest together are the bytes received |
| `PollServer.ClientConnection.ReceiveDataFromSocket` | lib/server.cpp:292-308 | false exactly on an empty chunk; what was kept and the chunk are delivered as one block if that is complete, and kept otherwise |
| `PollServer.StaysOpenExactly` | lib/server.cpp:295-307 | a connection stays open through a run of chunks if and only if none is empty |
| `WorkerSafety.LockInvHolds` | lib/workerthread.cpp:67-72 | every step of every thread keeps the mutex and the locked regions in agreement |
| `WorkerSafety.HistoryInvHolds` | lib/workerthread.cpp:97-147 | every step keeps the account of what was queued, taken, run and freed |
| `WorkerSafety.MutualExclusion` | lib/workerthread.cpp:50-55 | in every reachable state at most one thread is in a locked region, the owner of the mutex |
| `WorkerSafety.NoLostWakeup` | lib/workerthread.cpp:102-110 | in every reachable state the queue of a sleeping worker is empty if and only if no thread is between its push and its notification; such a thread holds the lock and its next step wakes the worker |
| `WorkerSafety.AsleepOnFullQueue` | lib/workerthread.cpp:67-72 | a state with the worker asleep and a message in the queue is reachable |
| `WorkerSafety.QueueSemantics` | lib/workerthread.cpp:97-131 | in every reachable state the callbacks run are the user messages taken so far in front of the first exit message, in queue order and once each, and all messages taken are freed in order but the one in hand |
| `WorkerSafety.ReturnLeavesNothingBehind` | lib/workerthread.cpp:131-147 | at the return the queue is empty, every message queued was freed exactly once, and exactly those before the first exit message ran |
| `Posting.CallsAreAlwaysPossible` | lib/workerthread.cpp:67-72 | a thread that is in no call can post any callback, ask for the exit and make any guarded call, whatever the others do |
| `Posting.PostsArriveOnce` | lib/workerthread.cpp:50-72 | in every run what a thread has put into the queue, and then what it still carries, is what its actions handed over, message by message and in order |
| `Posting.TimerPostsTicks` | lib/workerthread.cpp:82-87 | the timer puts timer messages there and nothing else |
| `Posting.OnlyPostedMessagesRun` | lib/workerthread.cpp:97-131 | in every run the callbacks of a thread that ran are the first of those it posted, in order and once each |
| `Posting.PostedBeforeExitRuns` | lib/workerthread.cpp:97-147 | every callback that a thread has posted before anybody posts an exit message has run when `Process` returns |
| `Posting.SleepingWorkerHasRunAllPosts` | lib/workerthread.cpp:102-110 | while the worker sleeps and the lock is free, all callbacks posted have run |
| `Shutdown.AtMostOneLateTick` | lib/workerthread.cpp:74-89 | the timer queues at most one message after the flag is set and none once joined |
| `Shutdown.NoDeadlock` | lib/workerthread.cpp:131-147 | until the return the worker, its timer, or the owner of the lock can always take a step, and the worker joins without the lock |
| `Shutdown.RankOfStep` | lib/workerthread.cpp:131-147 | once the flag is set each step of worker or timer lowers the rank by one, and only a message queued by another thread raises it, by one |
| `Shutdown.RankOfRun` | lib/workerthread.cpp:131-147 | over a run, steps taken and rank left are the rank at the start and the messages added |
| `Shutdown.ShutdownIsBounded` | lib/workerthread.cpp:131-147 | worker and timer take at most the rank, itself at most 13 plus the queue length, plus the messages others add, and exactly that many to return |
| `Shutdown.ShutdownFinishes` | lib/workerthread.cpp:131-147 | from every reachable state with the flag set, the schedule that takes a step that is not blocked returns within the rank and the few steps left to a thread that has the lock |
| `Confinement.BodiesRunOnTheWorker` | lib/threadedclass.h:83-107 | in every run guarded bodies run on the worker thread only, and a call out of the queue is never posted again |
| `Confinement.CallsRunInIssueOrder` | lib/handlerbase.cpp:13-25 | each call of an outside thread is queued once, and those run did so in issue order with the arguments captured at the call |
| `Confinement.SleepingWorkerHasRunEverything` | lib/workerthread.cpp:91-110 | whenever the worker sleeps and the lock is free, every call handed over has run |
| `Posting.OwnCallsRunAtOnce` | lib/threadedclass.h:83-91 | in every run the guarded calls made on the worker's own thread have all run, with their arguments and in order |

## Left out

- `dblib`: a thin wrapper over the MySQL C API.
- Sockets, TLS, asio, name resolution and the `poll` loops: a read is an arbitrary chunk, a write completion an arbitrary step.
- The send side of the poll server, and a `recv` that fails with -1.
- The error branches of the session callbacks, which delete the session; destructors, raw pointers and `CreateThread`.
- Data races on `m_timerExit` and `thisId`: each access to them is one atomic step of the model.
- Sleep durations, console output and `lib/log`.
- `std::set`: it is printed like a vector and has no reader.
- Characters are Dafny characters; the codec only compares them with ASCII ones.
- `MAKE_RMI0` and the call without arguments: its template does not fit its use.
- An uninitialised `int` field may hold anything before it is read; zero stands for it.
- RoundTrip.CodecRoundTrip: states the law for clean values; outside them it is exact for strings, for flat objects, for RMI packets and for lists of strings, not for arbitrarily nested values.
- RemoteCalls.RemoteCallRefinesLocalExactly: is about one function called through `readData` and the answer text; the transport in between is `sendAndWait`, which the program leaves abstract.
- Dispatch.Handler.RunPosted: takes the posted calls as a queue; the lock, the wait and the other messages of the thread are in `WorkerThreads`.
- SessionReads.OneHandOffPerPacket: assumes that reads do not cross packet boundaries, that a packet that fits the read buffer comes in one read and that a larger one starts with a read of at least its header; `BytesBehindPacketAreDropped`, `PartOfSmallPacketExactly` and `LargePacketCollectedExactly` say what the code does otherwise.
- Shutdown.ShutdownIsBounded: bounds the steps of worker and timer; that a thread which can step does so in the end is up to the scheduler.
