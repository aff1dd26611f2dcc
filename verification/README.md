# A verified model of bmRPC

bmRPC is a remote procedure call stack in C++: a client serializes typed calls, frames them, and
pushes them byte by byte through ring buffers and a bounded link to a server, which performs them
and sends the results back the same way.  This project models the binary protocol build
(`src/bmRPC.h:53`) layer by layer, proves each layer against a simple specification, and composes
the layers into theorems about whole runs of a client and a server.

## The layers

| file | what it holds |
|---|---|
| `Bytes.dfy`, `Frame.dfy` | integers as bytes in memory of either byte order; the frame format, its reference decoder, unique decodability, frames between hosts of different byte order |
| `DataLink.dfy` | `SharedBuffer`: two bounded queues on arrays, and the two ends of the link |
| `Streamer.dfy` | `Streamer`: transmit and receive ring, refining a bounded FIFO |
| `Wire.dfy`, `Serializer.dfy` | the resumable phase machines, refining encoder and reference decoder |
| `Channel.dfy` | one direction as a state machine over all its buffers: conservation, order, progress, blocking |
| `ByteOrder.dfy` | the two byte swaps and what they do to a transfer |
| `ParamTypes.dfy`, `Prototype.dfy`, `Collisions.dfy` | the type table, procedure ids and when two procedures share one |
| `Marshaller.dfy` | argument and result lists, where results are stored, remote call = local call |
| `Lambda.dfy` | the lambda that `connect` registers: union values and a heap of strings and blobs |
| `Registry.dfy`, `Handles.dfy` | map and list of registered procedures; the count of handles |
| `Peers.dfy`, `Protocol.dfy` | what client and server do as functions on their state, and the whole system with its history |
| `Invariant.dfy`, `Runs.dfy` | the invariant of the system, kept by every step of every run |
| `Theorems.dfy`, `Numbering.dfy` | what holds of whole runs and of the 16-bit ids |
| `Effects.dfy` | what steps, events and runs do in terms of the caller's variables, the requests made and the functions registered |
| `Layout.dfy` | the bytes of one call and its reply, written out |
| `Liveness.dfy`, `Progress.dfy` | endless fair runs; a measure of the work left, and what one round gets done |
| `Schedule.dfy` | events, the steps that an event stands for, executions of schedules, and what rounds in them achieve |
| `Endpoint.dfy`, `Client.dfy`, `Server.dfy`, `Session.dfy` | the classes, and the proof that what the objects do is, event by event, a run of the system |

The classes keep the fields and loops of the source.  Each loop of `doLoop` returns, as a ghost
result, the trace of states it went through and the turns it made, and, as a real one, the values
that its callbacks got.  `Session` shows that a schedule executed by the objects is a run of the state
machine in `Protocol` whose steps are, event by event, those that the event stands for, and whose
replies carry the values that the callbacks got (`Session.Execute`).  So the theorems about runs are
theorems about what the objects do.  Undefined behaviour of the source (a search off the end of a
list, a null stub, a read beyond a buffer) is an explicit outcome, `None` or not ok, and is proved
not to occur in any run.

## The main results

- `Theorems.ReturnsAreLocal`, `Theorems.DispatchIsLocal`: every reply goes to its own call, and a
  remote call is a local call that copies its arguments in when it is issued and its results out
  when its reply is dispatched, if its strings and blobs are short and no pointer to a constant
  comes before a by-reference parameter; what it is otherwise is stated as exactly.
- `Effects.CallsAreRequests`, `Effects.CallbackOrder`, `Effects.FunctionsInRuns`: every call of a run is
  a request that the application or a callback made, on the values that its arguments had then, a
  callback's requests go out in its order, and what comes back is what the function returned.
- `Theorems.InOrderMatching`: a stub's invocation list holds, in order, exactly the ids of its
  replies under way, of its calls whose request was dropped, and of its requests under way, also
  when the 16-bit counter has wrapped and callbacks issue calls.
- `Theorems.AtMostOnce`, `Runs.NeverServedAgain`, `Runs.RegistersExactly`: no call is answered
  twice, answers come in the order of the calls, and a procedure can be registered and served if and
  only if no request of it was ever dropped.
- `Numbering.IdsDistinctExactly`: the ids in a stub's list are distinct exactly while no more than
  65536 calls are outstanding; the matching above does not need it.
- `Runs.DispatchDefined`, `Runs.RunInv`: the search through the invocation list never runs off its
  end, not even when the server dropped requests.
- `Runs.BytesConserved`: no byte is lost, duplicated or reordered between the ends.
- `Frame.ChunkIndependent`, `SerializerModule.Deserializer.Receive`: however the link splits the
  bytes, exactly the messages that were sent are decoded.
- `ChannelModule.NoDeadlock`, `Progress.RoundProgress`, `Schedule.RoundsAnswer`,
  `Liveness.EveryCallIsAnswered`: no combination of full buffers blocks, every round gets something
  done while anything is left, and, when callbacks issue finitely many calls, in the end a call is
  answered if and only if its own request was not dropped.
- `PrototypeModule.IdInjective`, `Registry.LookupIsSearch`, `Lambda.Invoke`: ids tell procedures
  apart, lookup is search, and nothing allocated for a call outlives it.
- `Session.Execute`, `Session.RunRounds`: a client and a server object, driven by any schedule, take
  the steps of a run that the events of the schedule stand for, their callbacks get what local calls
  return, and at least one round, and at least as many as there is work left, answer every call.

## Where the code does not do what it is meant to

- A string or blob of 65536 bytes or more arrives cut to its length modulo 65536
  (`Marshaller.LongStringIsLost`; `Marshaller.WireIsIdentity` says exactly when nothing is lost).
- The header of a frame is never byte-swapped, under no setting.  A host of the other byte order
  decodes a frame to its name and value if and only if the eight bytes of the size are a palindrome
  (`Frame.CrossOrderExactly`).  A value of 1 to 255 bytes is waited for in vain, and whatever is sent
  behind it, nothing is delivered before 2^56 times as many bytes are under way
  (`Frame.ShortFrameBlocks`, `ChannelModule.OtherOrderBlocks`, `ChannelModule.NothingDelivered`).  Only the id survives, because it is echoed (`Frame.EchoedId`).
- The address of the argument for a pointer to a constant is remembered although no result belongs
  to it.  Results then go to their own variables if and only if no such parameter comes before a
  by-reference one (`Marshaller.RoutedExactly`); otherwise one is stored over a variable that the
  function may not change, and another is lost (`Marshaller.ResultsAreMisrouted`,
  `Marshaller.PointerToConstMisroutes`).
- A name with a NUL in it does not survive the frame (`Frame.NulNameIsLost`; `Frame.RoundTripExactly`
  says exactly which names do), and a space in a
  function name lets two procedures share an id (`PrototypeModule.SpacedNameCollides`;
  `Collisions.IdExactly` and `Collisions.CollisionExactly` say exactly which).
- The client looks stubs up by the bare function name, which is never a key, so the count of
  handles is always 1 and the first disconnect removes the stub of all other handles.  Handles are
  safe in a run if and only if nothing was disconnected while another handle to the same stub was
  live (`Handles.CountsAreOne`, `Handles.SafeExactly`, `Handles.SecondHandleDangles`).
- A request for an unknown procedure leaves a null entry behind, after which the procedure can no
  longer be registered and none of its requests is served (`Registry.FunctionsRegistry.Get`,
  `ServerModule.RpcServer.Connect`, `Runs.NeverServedAgain`, `Runs.ServedTooEarly`).  In a run that is
  the only reason: registration works if and only if no request of the procedure was ever dropped
  (`Runs.RegistersExactly`).
- Writing nothing to an empty ring marks it full, and consuming nothing from a full ring empties it.
  Both are modelled, and the phase machines are proved never to do it
  (`SerializerModule.Serializer.WriteField`, `SerializerModule.Deserializer.Take`).

## Assumptions

One client and one server, each single-threaded, in any interleaving of their loops.  A timed loop
makes some number of turns, which is a parameter; liveness assumes that each has time for at least
one turn.  In the theorems about runs client and server have the same byte order, so that they share
the layout of the header, and any of the settings of the argument swaps that fit (`Peers.Sound`);
`Frame` and `Channel` say what happens otherwise.  `long` has eight bytes.  Floating-point values are opaque bit patterns.
Names hold no NUL and no space, and a procedure has at least one parameter and fewer than 2^32.  A
registered function is a mathematical function of its arguments and of the state of the server's
device.  A variable that is passed has a value.  A callback is what it issues: any list of further
calls.

## Model

| member | source | states |
|---|---|---|
| Frame.ParseEnc | src/bmRPCSerializer.h:165-241 | every frame, of either byte order and whatever follows it, decodes on a host of the same byte order to its own message and its own length |
| Frame.ParseSound | src/bmRPCSerializer.h:426-530 | whatever decodes is, byte for byte, the frame of a well-formed message |
| Frame.RoundTripExactly | src/bmRPCSerializer.h:461-478 | a frame decodes to its message if and only if the name holds no NUL |
| Frame.NulNameIsLost | src/bmRPCSerializer.h:461-478 | the name that is one NUL arrives empty, and a byte of the frame is left over |
| Frame.ParsePrefix | src/bmRPCSerializer.h:426-530 | a prefix of a run of frames yields a message exactly when it holds the whole first frame |
| Frame.EncAllInjective | src/bmRPCSerializer.h:154-241 | equal byte streams carry equal message lists |
| Frame.ChunkIndependent | src/bmRPCSerializer.h:416-530 | however the bytes of a message list are cut into chunks, decoding chunk by chunk yields this list and leaves nothing over |
| Frame.ParseAcross | src/bmRPCSerializer.h:443-498 | on a host of any byte order a frame decodes to its name, the id that this host reads, and as many bytes as the size that it reads says, or to nothing if they are not there |
| Frame.CrossOrderExactly | src/bmRPCSerializer.h:479-498 | a frame decodes to its name and value if and only if the byte orders are equal or the eight bytes of the size are a palindrome |
| Frame.ShortFrameBlocks | src/bmRPCSerializer.h:479-498 | a value of 1 to 255 bytes yields nothing on a host of the other byte order before 2^56 times as many bytes have come |
| Frame.EchoedId | src/bmRPCSerializer.h:159-163 | an id that the server reads and sends back is read by the client as it was sent, also between hosts of different byte order |
| DataLink.SharedBuffer.SrvRead | src/bmRPCDataLink.h:87-99 | removes the oldest bytes of the request queue, as many as fit, and copies exactly these; the other queue and the rest of the target are unchanged |
| DataLink.SharedBuffer.SrvWrite | src/bmRPCDataLink.h:101-114 | appends the longest prefix that fits; after a short write the queue is full, so the next write returns 0 until somebody reads |
| DataLink.SharedBuffer.ClnRead | src/bmRPCDataLink.h:120-132 | the same removal for the reply queue |
| DataLink.SharedBuffer.ClnWrite | src/bmRPCDataLink.h:134-147 | the same append for the request queue |
| DataLink.Com.Write | src/bmRPCDataLink.h:164-242 | each end writes to the queue that the other end reads, and leaves its own incoming queue alone |
| DataLink.Com.Read | src/bmRPCDataLink.h:164-242 | each end reads from the queue that the other end writes |
| StreamerModule.RingLength | src/bmRPCStreamer.h:214-237 | the masked unsigned difference of the indices is the number of bytes held, the full flag telling 0 and 1024 apart |
| StreamerModule.RingAppend | src/bmRPCStreamer.h:45-75 | bytes stored in one or two pieces are appended to the content, and the ring is full exactly when the indices meet |
| StreamerModule.RingDrop | src/bmRPCStreamer.h:170-183 | advancing the out index removes exactly the oldest bytes |
| StreamerModule.RingPeek | src/bmRPCStreamer.h:144-168 | the copy in two pieces is the oldest bytes in order |
| StreamerModule.FilledTwice | src/bmRPCStreamer.h:242-272 | ring and link together keep their bytes over a fetch, and a second fetch changes nothing |
| StreamerModule.FilledExactly | src/bmRPCStreamer.h:242-272 | a fetch takes the oldest bytes of the link, until the link is empty or the ring holds 1024 |
| StreamerModule.FlushedExactly | src/bmRPCStreamer.h:77-114 | a flush is what keeps the bytes of ring and link in order and goes on until the ring is empty or the link holds 256 bytes, and nothing else is |
| StreamerModule.ConsumedExactly | src/bmRPCStreamer.h:170-183 | consuming removes exactly the oldest bytes, if and only if it is not nothing from a full ring, which loses all of it |
| StreamerModule.Streamer.Write | src/bmRPCStreamer.h:45-75 | stores the longest prefix that fits behind the content, returns its length, and flushes; a zero-length write to an empty ring makes its 1024 stale bytes content |
| StreamerModule.Streamer.Flush | src/bmRPCStreamer.h:77-114 | terminates and hands the link the longest prefix that it takes, in order, also across the end of the ring; nothing is lost or sent twice |
| StreamerModule.Streamer.SendAround | src/bmRPCStreamer.h:90-102 | a packet that passes the end of the ring is sent in order, although the second write is made even after a short first one |
| StreamerModule.Streamer.ComRead | src/bmRPCStreamer.h:242-272 | appends to the receive ring as much of the link's bytes as fits, and leaves the rest on the link |
| StreamerModule.Streamer.TryRead | src/bmRPCStreamer.h:144-168 | returns the oldest bytes after a fetch and keeps them |
| StreamerModule.Streamer.ConsumeRead | src/bmRPCStreamer.h:170-183 | removes the oldest bytes after a fetch; zero from a full ring empties it |
| StreamerModule.Streamer.Read | src/bmRPCStreamer.h:116-142 | returns what `TryRead` returns and leaves what `ConsumeRead` leaves |
| StreamerModule.Streamer.TxSize | src/bmRPCStreamer.h:214-224 | the number of bytes in the transmit ring |
| StreamerModule.Streamer.RxSize | src/bmRPCStreamer.h:226-237 | the number of bytes in the receive ring after a fetch |
| StreamerModule.Streamer.Reset | src/bmRPCStreamer.h:185-190 | both rings are empty and the link is untouched |
| SerializerModule.Serializer.Init | src/bmRPCSerializer.h:154-163 | the bytes still to be written are the whole frame of the message, its header as in the memory of the host |
| SerializerModule.Serializer.Send | src/bmRPCSerializer.h:165-241 | the ring gets the next bytes of the frame, exactly as many as the field has left and the 1024 bytes of the ring have room for; done exactly when the frame is written |
| SerializerModule.Serializer.WriteField | src/bmRPCSerializer.h:170-234 | the ring is never written with length 0; it gets the field as far as it has room, a prefix of the unwritten bytes |
| SerializerModule.Serializer.Account | src/bmRPCSerializer.h:165-241 | after a partial write exactly the written bytes are gone from the rest, over all field boundaries |
| SerializerModule.Deserializer.Init | src/bmRPCSerializer.h:416-424 | nothing of the current frame has been consumed |
| SerializerModule.Deserializer.Receive | src/bmRPCSerializer.h:426-530 | delivers a message exactly when the reference decoder for the byte order of the host finds one in what was consumed before and what the ring holds, consumes only its frame, and leaves later bytes in ring and link; terminates |
| SerializerModule.Deserializer.Step | src/bmRPCSerializer.h:429-523 | every turn of the loop consumes at least one byte, and what was consumed is a partial frame or the frame of the message delivered |
| SerializerModule.Deserializer.AccIsPartial | src/bmRPCSerializer.h:426-530 | what the partial fields carry from call to call never holds a whole frame |
| SerializerModule.Deserializer.Take | src/bmRPCSerializer.h:443-520 | the ring is never asked to consume 0 bytes, and loses exactly the consumed ones |
| ChannelModule.Conservation | src/bmRPCStreamer.h:45-114 | all bytes ever pushed are the decoded frames, the consumed part, the receive ring, the link, the transmit ring and the unwritten rest, in this order |
| ChannelModule.PushInv | src/bmRPCClient.h:94-119 | a queued message becomes the newest in flight |
| ChannelModule.PopInv | src/bmRPCServer.h:125-135 | the message taken is the oldest in flight |
| ChannelModule.HopInv | src/bmRPCClient.h:134-174 | every turn of a send, flush or receive loop keeps the channel a FIFO queue with the same content |
| ChannelModule.NextFrame | src/bmRPCSerializer.h:426-530 | what the decoder sees yields the next message that was pushed, and nothing else |
| ChannelModule.HopProgress | src/bmRPCStreamer.h:77-114 | a turn changes nothing or brings bytes nearer to the receiver, and an enabled one does the latter |
| ChannelModule.NoDeadlock | src/bmRPCStreamer.h:242-272 | while a byte has a hop left, some turn is enabled, whatever buffers are full |
| ChannelModule.Drained | src/bmRPCClient.h:141-166 | when no byte has a hop left, everything that was pushed has been decoded |
| ChannelModule.HopTotal | src/bmRPCServer.h:106-152 | every turn is possible in every state |
| ChannelModule.BlockedStays | src/bmRPCSerializer.h:479-498 | when the bytes under way hold nothing that the receiver can decode, no turn of any loop delivers a message, loses a byte or changes that |
| ChannelModule.OtherOrderBlocks | src/bmRPCSerializer.h:479-498 | one short message to a host of the other byte order is enough for that |
| ChannelModule.NothingDelivered | src/bmRPCSerializer.h:479-498 | nor do further messages help: whatever is queued behind it and whatever turns are made, nothing is delivered before 2^56 times as many bytes as its value has are under way |
| ByteOrder.StaticSwapReverses | src/bmRPCAnyArg.h:33-41 | the shift-and-mask swap reverses the bytes, for every width |
| ByteOrder.StaticSwapInvolution | src/bmRPCAnyArg.h:33-41 | it is its own inverse on values of that width |
| ByteOrder.DynamicSwapIsStatic | src/bmRPCAnyArg.h:43-54 | reversing the memory of a value is the same swap, on hosts of either byte order |
| ByteOrder.Transfer | src/bmRPCAnyArg.h:104-119 | a scalar arrives unchanged when byte orders and swaps are reconciled, and reversed otherwise |
| ByteOrder.TransferExactly | src/bmRPCAnyArg.h:173-183 | it arrives unchanged if and only if they are reconciled or its bytes are a palindrome |
| ByteOrder.SettingsReconcile | src/bmRPC.h:40-67 | under every setting of loop-back and of the two byte orders, arguments and results arrive unchanged |
| ByteOrder.SettingsOnLink | src/bmRPC.h:40-67 | under every setting a host that is told of different byte orders sends the reverse of its memory, and in a loop-back build it also reverses what it receives |
| Peers.SettingsSound | src/bmRPC.h:40-67 | the settings under which the theorems about runs hold are exactly the loop-back builds and those with hosts of one byte order |
| ParamTypes.TablesAgree | src/bmRPCAnyArg.h:618-872 | the switches of server and client read every parameter type the way it is written |
| ParamTypes.ShapeByName | src/bmRPCAnyArg.h:618-872 | references are the types whose name ends in an ampersand, pointers those that end in a star, what points to a constant begins with const, and a result comes back through the others |
| ParamTypes.ReturnedLikeParam | src/bmRPCAnyArg.h:618-872 | a returned type has the name and the width of the parameter of the same type |
| Marshaller.TypeValues | src/bmRPCAnyArg.h:618-872 | the values of a type are the bit patterns of its width in C++, or any bytes |
| PrototypeModule.NameCode | src/bmRPCAnyArg.h:627-872 | the type names are a uniquely decodable code, although the names of blobs hold a space |
| PrototypeModule.StringifyInjective | src/bmRPCMarshaller.h:645-659 | equal texts mean equal parameter lists |
| PrototypeModule.IdInjective | src/bmRPCServer.h:90-91 | equal ids mean equal return type, name and parameter list |
| PrototypeModule.SpacedNameCollides | src/bmRPCServer.h:90-91 | with a space in the function name two different prototypes share an id |
| Collisions.IdExactly | src/bmRPCServer.h:90-91 | two prototypes share an id if and only if they are equal, or return the same type and the name of one is that of the other followed by the parameters it has more |
| Collisions.CollisionExactly | src/bmRPCServer.h:90-91 | a prototype shares its id with another if and only if it has two parameters or more, or its name ends in the text of a parameter list |
| PrototypeModule.KeyFacts | src/bmRPCServer.h:90-91 | keys hold no NUL, and two procedures share a key only if they are the same |
| PrototypeModule.BareNameMisses | src/bmRPCClient.h:51-58 | a bare function name is never a key |
| Marshaller.ValueRoundTrip | src/bmRPCAnyArg.h:76-202 | a number comes back as it is, a string or blob as its prefix of length modulo 65536, whatever follows it |
| Marshaller.WireIsIdentity | src/bmRPCAnyArg.h:76-122 | nothing is lost if and only if every string and blob is shorter than 65536 bytes |
| Marshaller.LongStringIsLost | src/bmRPCAnyArg.h:76-122 | a string of 65536 bytes arrives empty |
| Marshaller.ReadsPassed | src/bmRPCMarshaller.h:735-762 | the values read are those passed, temporaries themselves and variables by their content, and no others |
| Marshaller.WellCalledMeans | src/bmRPCMarshaller.h:735-743 | a call is well formed if and only if values of the types of the parameters are passed, through variables where an address is needed |
| Marshaller.SerializedBytes | src/bmRPCMarshaller.h:721-771 | the bytes of a request are those of the argument values when the call is issued |
| Marshaller.SerializedAddresses | src/bmRPCMarshaller.h:746-762 | the addresses remembered are those of the arguments for by-reference parameters and for pointers to constants, in order |
| Marshaller.ArgsRoundTrip | src/bmRPCMarshaller.h:163-265 | for every type list and all values the server reads what the client wrote, and its cursor ends at the end of the buffer |
| Marshaller.ArgsArrive | src/bmRPCMarshaller.h:163-265 | from the bytes of a request the server reads the values that the caller passed, and its cursor ends at the end |
| Marshaller.SelectionsAgree | src/bmRPCMarshaller.h:755-760 | client and server select the same results; the addresses remembered are those of the results and, wrongly, those for pointers to constants |
| Marshaller.OutsRoundTrip | src/bmRPCMarshaller.h:563-639 | whatever addresses are remembered, the i-th result arrives and is stored through the i-th of them |
| Marshaller.AlignedMeans | src/bmRPCMarshaller.h:755-760 | the recursive condition on a parameter list says that no pointer to a constant comes before a parameter that carries a result |
| Marshaller.RoutedExactly | src/bmRPCMarshaller.h:755-760 | with distinct variables, every result goes through the address of its own variable if and only if that condition holds |
| Marshaller.ResultsReachVariables | src/bmRPCMarshaller.h:563-639 | under that condition each result reaches its own variable, and no other variable changes |
| Marshaller.Overwritten | src/bmRPCMarshaller.h:563-639 | otherwise the variable of a pointer to a constant ends up with the value of a later result |
| Marshaller.Missed | src/bmRPCMarshaller.h:563-639 | and the address of some variable that a result belongs to is not used at all |
| Marshaller.ResultsAreMisrouted | src/bmRPCMarshaller.h:563-639 | both, for what the client reads from the bytes of the reply |
| Marshaller.PointerToConstMisroutes | src/bmRPCAnyArg.h:586-603 | a function of a pointer to a constant string and a reference to an int: the number is stored over the string |
| Marshaller.ReplyRoundTrip | src/bmRPCMarshaller.h:373-481 | every value of the returned type is split off as it was returned, and the results as the server left them are stored through the remembered addresses in turn |
| Marshaller.RetFitsWidth | src/bmRPCMarshaller.h:373-481 | what is split off a reply is as wide as the returned type: 2^32 values of int and float, 2^64 of the others |
| Marshaller.CopyOutMeans | src/bmRPCMarshaller.h:563-639 | copy-out to different variables leaves in each the final value of its own parameter |
| Marshaller.CopyOutElsewhere | src/bmRPCMarshaller.h:563-639 | and a variable that no result belongs to keeps its value |
| Marshaller.PerformIsCall | src/bmRPCServer.h:48-84 | the server answers a request with the outcome of the function on the values sent |
| Marshaller.RemoteIsLocal | src/bmRPCMarshaller.h:483-491 | serializing, performing and accepting a call on the values passed cuts its strings and stores its results through the remembered addresses; it is a plain local call on these values when what is sent and returned is short and the parameter list aligned |
| Marshaller.ReturnArrives | src/bmRPCMarshaller.h:373-481 | the caller of a function gets what it returned on the values that arrived, and nothing from a void function |
| Layout.ArgumentBytes | src/bmRPCAnyArg.h:76-122 | the arguments 1 and ab on hosts of both byte orders, with and without swaps, byte by byte |
| Layout.RequestFrame | src/bmRPCSerializer.h:154-241 | the whole frame of a first call: number, prototype text, NUL, size, arguments |
| Layout.ReplyBytes | src/bmRPCMarshaller.h:299-369 | the reply with 70000 returned and 258 left in a reference: returned value first, then the result |
| Marshaller.PlainIsLocal | src/bmRPCMarshaller.h:483-491 | for such a call the connection does not show: the remote call is the local one |
| Lambda.DeserializeInArgs | src/bmRPCMarshaller.h:163-265 | builds the values of the request; its strings and blobs are distinct new objects |
| Lambda.CallWithArgs | src/bmRPCMarshaller.h:483-491 | the function gets the decoded values, and what it leaves in its references is in the vector afterwards |
| Lambda.SerializeOutArgs | src/bmRPCMarshaller.h:299-369 | appends the by-reference values and deletes each object once, after its last use: the heap is as before the call |
| Lambda.Invoke | src/bmRPCServer.h:48-84 | the registered lambda computes the specified reply and leaves the heap as it found it |
| Registry.LookupIsSearch | src/bmRPCRegistry.h:62-67 | hashed lookup is linear search of the list by name |
| Registry.FunctionsRegistry.Insert | src/bmRPCRegistry.h:31-45 | keeps map and list in bijection; an existing entry, be it null, is returned and no node is added |
| Registry.FunctionsRegistry.Remove | src/bmRPCRegistry.h:47-60 | removes the entry and its only node, and keeps the bijection |
| Registry.FunctionsRegistry.Find | src/bmRPCRegistry.h:62-67 | the result of the lookup is that of the search |
| Registry.FunctionsRegistry.Get | src/bmRPCRegistry.h:69-71 | a lookup that leaves a null entry for an absent name, and no node |
| Handles.CountsAreOne | src/bmRPCClient.h:42-78 | in every run of connects and disconnects every stub that exists has the count 1, however many handles to it are live |
| Handles.ConnectSafe | src/bmRPCClient.h:42-67 | after connecting every live handle is on a stub that exists if and only if that was so before |
| Handles.DisconnectSafe | src/bmRPCClient.h:69-78 | after disconnecting it is so if and only if it was before and no other live handle was on the same stub |
| Handles.SafeExactly | src/bmRPCClient.h:42-78 | in every state of every run every live handle is on its registered stub if and only if no handle was disconnected while another one to the same stub was live |
| Handles.SecondHandleDangles | src/bmRPCClient.h:69-78 | two handles to one procedure: the first disconnect leaves the second without a stub, connecting again does not help, and the second disconnect is undefined |
| Invariant.ServeDefined | src/bmRPCServer.h:125-135 | in no state of a run does serving a request read beyond its bytes |
| Invariant.ServeInv | src/bmRPCServer.h:125-135 | serving or dropping a request keeps the invariant of the system |
| Invariant.AsyncInv | src/bmRPCClient.h:80-123 | issuing a call keeps it |
| Invariant.MatchedReply | src/bmRPCStub.h:106-136 | the oldest reply finds the oldest entry of its stub, which is that of its own call, carries the value of the function, and stores its final parameter values; also after drops |
| Peers.IssueExactly | src/bmRPCClient.h:80-123 | a call of a connected procedure with fitting arguments appends exactly one message and one entry, with the next number modulo 65536, while at most 512 messages are queued, and otherwise changes nothing |
| Peers.RegisterExactly | src/bmRPCServer.h:46-94 | a function is registered where there is no entry, and nothing else changes |
| Peers.UnregisterExactly | src/bmRPCServer.h:96-98 | a registered function is removed with its entry, and no other; a null entry stays |
| Runs.DispatchInv | src/bmRPCStub.h:106-136 | dispatching a reply keeps the invariant, although the callback issues calls between match and erasure |
| Runs.DispatchDefined | src/bmRPCStub.h:118-135 | whatever the callback does, the oldest reply can be dispatched: the search never runs off the list |
| Runs.StepInv | src/bmRPCClient.h:80-174 | every step of client, server or link keeps the invariant |
| Runs.RunInv | src/bmRPCClient.h:80-174 | the invariant holds in every state of every run |
| Runs.BytesConserved | src/bmRPCClient.h:141-166 | in every state of every run, in both directions, every byte of every message queued is in exactly one place, in order |
| Runs.NeverServedAgain | src/bmRPCRegistry.h:69-71 | once a request of a procedure was dropped, no later request of it is ever served, not even when its function is registered in the meantime |
| Runs.ServedTooEarly | src/bmRPCServer.h:125-135 | a request that comes before its function is registered: the registration changes nothing, and the next request gets no reply either |
| Runs.RunNulls | src/bmRPCRegistry.h:69-71 | in every state of every run a null entry is under the key of a call whose request was dropped |
| Runs.RegistersExactly | src/bmRPCServer.h:46-94 | in every state of every run, registering a function leaves its procedure with a function if and only if no request of the procedure was ever dropped |
| Theorems.InOrderMatching | src/bmRPCClient.h:94-119 | in every state of every run the list of every stub holds, in order, the ids of its replies under way, of its calls whose request was dropped, and of its requests under way, also across the wrap of the counter |
| Numbering.IdsDistinctExactly | src/bmRPCClient.h:94-119 | the ids in the list of every stub are consecutive modulo 65536 and end with the counter, and they are distinct if and only if at most 65536 calls are outstanding |
| Theorems.ReturnsAreLocal | src/bmRPCStub.h:106-136 | every dispatched reply goes to its own call and carries what the call returns when the served calls are executed in the order of issue, the device being in the state they leave; with short strings and blobs that is what plain local calls return and leave |
| Theorems.DispatchIsLocal | src/bmRPCMarshaller.h:563-639 | a dispatch completes its own call and leaves in the caller's variables what the remote call leaves there, which is what the plain local call leaves when strings and blobs are short and the parameter list is aligned |
| Theorems.AtMostOnce | src/bmRPCStub.h:118-135 | in every state of every run no call has been answered twice, and answers come in the order of the calls |
| Effects.AsyncExactly | src/bmRPCClient.h:80-123 | a request of a connected procedure with fitting arguments becomes one call with the values passed and one message behind the others, if and only if at most 512 messages are queued |
| Effects.CallbackOrder | src/bmRPCStub.h:130-135 | the requests of a callback are issued in its order, each at most once, with the values that the variables have after the results were stored; all of them when they can be issued and the queue has room |
| Effects.CallsAreRequests | src/bmRPCClient.h:80-123 | every call of a run was made in one step of it by the application or by a callback, with the values that its arguments had then |
| Effects.FunctionsInRuns | src/bmRPCServer.h:48-84 | in every run each function found the device as the one served before left it, and callbacks got what the functions returned on the arguments as they arrived |
| Effects.WithdrawnDrops | src/bmRPCServer.h:96-98 | after a registered function is taken back, a request of its procedure that is served next is dropped |
| Effects.WithdrawnReplaced | src/bmRPCRegistry.h:47-60 | or another function can be registered in its place, and no other entry has changed |
| Effects.CallEvent | src/bmRPCClient.h:80-123 | a call by the application adds one call with the values passed if the procedure is connected, the arguments fit and at most 512 messages are queued, and otherwise changes nothing |
| Effects.OtherEvents | src/bmRPCClient.h:42-78 | what connecting, disconnecting, assigning, registering and taking back change |
| Effects.CallbackCallsWait | src/bmRPCClient.h:134-174 | what callbacks issue in a round of the client is queued, whole and in order, behind all else at its end |
| Liveness.ActRank | src/bmRPCServer.h:113-123 | every activity of the loops leaves the state as it is or makes the remaining work smaller |
| Liveness.SomethingUseful | src/bmRPCClient.h:141-152 | while work remains, some activity makes it smaller |
| Liveness.ActTotal | src/bmRPCServer.h:106-152 | no activity gets stuck |
| Liveness.FairRunExists | src/bmRPCServer.h:106-152 | from every state of a run, alternating rounds of client and server make a fair endless run |
| Liveness.FairProvides | src/bmRPCServer.h:125-135 | whatever callbacks issue, calls are only added, and the loops never drop a request of a procedure that has a function |
| Liveness.ComesToRest | src/bmRPCClient.h:134-174 | every fair run comes to rest |
| Liveness.RefusedDispatch | src/bmRPCStub.h:106-136 | a dispatch whose callback gets no call accepted is a dispatch whose callback issues nothing |
| Liveness.ComesToRestWith | src/bmRPCClient.h:134-174 | with callbacks that issue calls, every fair run with finitely many calls comes to rest after the last of them |
| Liveness.RestMeansAnswered | src/bmRPCStub.h:106-136 | at rest a call has been answered, through its own entry, if and only if its own request was not dropped |
| Liveness.EveryCallIsAnswered | src/bmRPCClient.h:80-174 | from any state of any run, if callbacks issue finitely many calls more, a state comes after all of them in which a call has been answered if and only if its own request was not dropped; requests of procedures that have a function by then are not dropped any more |
| Progress.ReplyLength | src/bmRPCMarshaller.h:299-369 | the length of a reply is bounded by the number of parameters of its call |
| Progress.ActMoves | src/bmRPCClient.h:134-174 | no activity of the loops adds to what is left in a direction, and a hop that can be made stays possible until some byte of that direction has moved |
| Progress.RoundUp | src/bmRPCClient.h:134-174 | a round of client and server in which every timed loop has time for a turn brings undelivered request bytes nearer to the server |
| Progress.RoundDown | src/bmRPCServer.h:106-152 | and with undelivered reply bytes or unanswered requests it leaves less to do for replies |
| Progress.RoundProgress | src/bmRPCServer.h:106-152 | while anything is left to do, such a round leaves less |
| Progress.RestIsAnswer | src/bmRPCStub.h:106-136 | when nothing is left, every call has been answered, except those whose own request was dropped; none was dropped whose procedure had a function when the rounds began |
| Progress.DispatchSpent | src/bmRPCStub.h:106-136 | a dispatch adds to what is left no more than the work of the calls that its callback issues |
| Schedule.ExecutesOn | src/bmRPCClient.h:134-174 | an execution of a schedule, followed by steps that stand for one event more, is an execution of the longer schedule |
| Schedule.QuietRound | src/bmRPCServer.h:106-152 | a round of client and server in which no call is issued leaves less to do while anything is left |
| Schedule.RoundCounts | src/bmRPCServer.h:106-152 | a round leaves less to do, counting the work of the calls issued in it, or the system is at rest after it; at rest it stays so |
| Schedule.RoundsAnswer | src/bmRPCServer.h:106-152 | a schedule that ends in at least one round, and at least as many as work was left when they began, counting the work of the calls that callbacks issue meanwhile, leaves every call answered whose own request was not dropped |
| EndpointModule.Endpoint.TxTurn | src/bmRPCClient.h:141-152 | one turn of the transmit loop is a send step of the channel |
| EndpointModule.Endpoint.RxTurn | src/bmRPCServer.h:113-123 | one turn of the receive loop is a receive step of the channel |
| EndpointModule.Endpoint.FlushTurn | src/bmRPCStreamer.h:77-114 | the flush is a flush step of the channel |
| ClientModule.Stub.Invoke | src/bmRPCClient.h:94-119 | numbers the call, serializes its arguments and appends its invocation at the end of the list |
| ClientModule.Stub.FindInvokation | src/bmRPCStub.h:118-128 | the first entry with that id, or the end of the list |
| ClientModule.Stub.Unmarshall | src/bmRPCStub.h:106-136 | stores the results of a reply through the addresses of its entry; not ok exactly when the source reads out of bounds |
| ClientModule.DeserializeOutArgs | src/bmRPCMarshaller.h:563-639 | the loop over the results stores what the specification of copy-out says; not ok exactly when data or addresses run out |
| ClientModule.RpcClient.Connect | src/bmRPCClient.h:42-67 | the stub under the full prototype is returned, with the count 1; an existing one is not replaced |
| ClientModule.RpcClient.Disconnect | src/bmRPCClient.h:69-78 | a null handle is ignored; otherwise the stub is removed, and no other |
| ClientModule.RpcClient.AsyncRpc | src/bmRPCClient.h:80-123 | true exactly when the handle is not null and at most 512 messages are queued; then one request with the next number and one entry are appended, otherwise nothing changes |
| ClientModule.RpcClient.Dispatch | src/bmRPCStub.h:106-136 | refines the dispatch step: results stored, callback run with the value of the reply, entry erased, reply removed |
| ClientModule.RpcClient.TransmitLoop | src/bmRPCClient.h:141-152 | its turns are steps of the protocol: sends until its time is over or nothing is queued, and one flush |
| ClientModule.RpcClient.ReceiveLoop | src/bmRPCClient.h:154-166 | its turns are steps of the protocol: as many receives as it has time for |
| ClientModule.RpcClient.DispatchLoop | src/bmRPCClient.h:168-173 | terminates with no reply left, each dispatched by a step of the protocol, and returns the values that the callbacks got |
| ClientModule.RpcClient.DoLoop | src/bmRPCClient.h:134-174 | a round of the client is a sequence of steps of the protocol: sends until the time is over or nothing is queued, one flush, all receives it has time for, and dispatches until no reply is left, with the values returned |
| ServerModule.Skeleton.Dispatch | src/bmRPCStub.h:33-78 | leaves the specified reply for the arguments unmarshalled, and the heap balanced |
| ServerModule.RpcServer.Connect | src/bmRPCServer.h:46-94 | registers the function unless its key has an entry; the result is null exactly when that entry is null |
| ServerModule.RpcServer.Disconnect | src/bmRPCServer.h:96-98 | the entry of the procedure is gone from the map, and every other is unchanged |
| ServerModule.RpcServer.Serve | src/bmRPCServer.h:125-135 | refines the serve step: the reply with the id of its request is queued, or the request is dropped and a null entry left; the heap is balanced |
| ServerModule.RpcServer.DoLoop | src/bmRPCServer.h:106-152 | a round of the server is a sequence of steps of the protocol: all receives it has time for, serving until no request is left, sends until the time is over or nothing is queued, and one flush |
| ServerModule.PerformDefined | src/bmRPCServer.h:48-84 | a request can be performed exactly when its arguments can be read |
| Session.ClientTraceIsRun | src/bmRPCClient.h:134-174 | what a client object goes through is a run of the system that leaves the server alone |
| Session.ServerTraceIsRun | src/bmRPCServer.h:106-152 | what a server object goes through is a run of the system that leaves the client alone |
| Session.ClientRound | src/bmRPCClient.h:134-174 | a round of the client object takes the steps that this round stands for, gives its callbacks the values of the run, and never runs into undefined behaviour |
| Session.ServerRound | src/bmRPCServer.h:106-152 | a round of the server object takes the steps that this round stands for |
| Session.ClientRoundIsRun | src/bmRPCClient.h:134-174 | the trace of a round of the client is a run of the system by the turns of its plan, in which the replies dispatched carry the values that the callbacks got; the round cannot have failed |
| Session.ServerRoundIsRun | src/bmRPCServer.h:106-152 | the trace of a round of the server is a run of the system by the turns of its plan; the round cannot have failed |
| Session.PlanGains | src/bmRPCClient.h:168-173 | along a round of the client the replies dispatched so far carry, in order, the values that the callbacks got |
| Session.CallRound | src/bmRPCClient.h:80-123 | a call of the application is the issuing step |
| Session.DisconnectRound | src/bmRPCClient.h:69-78 | disconnecting is refused exactly when the procedure is not connected or calls of it are outstanding, and otherwise is the disconnecting step |
| Session.RunEvent | src/bmRPCClient.h:42-174 | an event executed by the objects takes exactly the steps that it stands for, and the values that callbacks got are those of the replies dispatched in it |
| Session.RunRounds | src/bmRPCClient.h:134-174 | after at least one round in which each loop has time for a turn, and at least as many as there was work left, counting that of the calls that callbacks issue meanwhile, the objects have answered every call except those whose own request was dropped |
| Session.RunSchedule | src/bmRPCClient.h:42-174 | the run that the objects make under any schedule is cut into one part for each event, the steps that this event stands for, and callbacks get the values of the replies dispatched in it |
| Session.Execute | src/bmRPCServer.h:46-152 | from construction on the objects are in the last state of a run from the given variables and device, whose steps are, event by event, those of the schedule; the values that callbacks got are those of its replies, and what the served calls return when executed locally |
| Session.LocalValues | src/bmRPCStub.h:106-136 | the j-th value that a callback got is what the j-th served call returns when the served calls are executed in order, locally if strings and blobs are short |

## Left out

- The text protocol and what only it uses (`ltrim`, `split`, text conversion of numbers), and the unused `splitST`, `splitSV` and `adjust_power_2`.
- `TimeOut`: the clock is replaced by the number of turns of each timed loop.
- Threads, and several clients of one type sharing the function-static messages of `doLoop`.
- Disconnecting a stub that has entries in its list: a reply to one of them, if its request was not dropped, would find no stub. `Protocol.Step` allows it only for an empty list.
- Links other than `SharedBuffer`; its lock flags are modelled as free between two calls. `ServerCom` and `ClientCom` are one class with a side, `EmptyCom` and the `can_read` functions are not modelled.
- A closed link below the serializer: `Streamer` is modelled for open and closed links, serializer and endpoint for open ones only.
- `initLoop` is part of the constructor of `Endpoint`.
- Type checks of the compiler (argument types, a variable for every reference to non-const and every pointer) are preconditions: `WellCalled`, `Typed`, `Connectable`.  A temporary passed for a reference to non-const also compiles (`src/bmRPCMarshaller.h:755-756`); it is excluded because its address is used after it is gone.
- The message to a missing callback (`EMPTY_CB`) is a callback that issues nothing.
- `Streamer::dec`, `Message` accessors, tests, the version file and the build files.
- Liveness.EveryCallIsAnswered: calls of the application, as opposed to those of callbacks, are not issued from the state considered on; infinitely many calls never come to rest.
- Session.RunSchedule: a round of a loop is executed as a whole; the finer interleavings of single turns are those of `Runs.Run`.
