# A verified model of the SOA library

The library lets a client call a service that runs in another process. A client looks up a
provider of the service in a registry, sends it a request, and receives a response; both messages
are a header, a NUL and a payload of argument blocks. This project models the four parts of the
system that carry its guarantees, and proves the guarantees:

* **Signatures** (`Signature.dfy`, `Grammar.dfy`): the text of a service signature, the two regular
  expressions that parse it, the canonical string that identifies the service everywhere else, and
  the written form letter by letter.
* **Remote calls** (`Argument.dfy`, `Header.dfy`, `Message.dfy`, `Payload.dfy`, `Connection.dfy`,
  `Rpc.dfy`, `Replies.dfy`, `Endpoint.dfy`): typed argument queues, message framing, the loop that
  hands out the bytes fetched together with a header, the state machine of a server connection, what
  the two ends say when something fails, and both ends as they run over a socket. The main theorem is
  RPC transparency.
* **The registry** (`Registry.dfy`, `RegistryRuns.dfy`, `RegistryImpl.dfy`, `RegistryThreads.dfy`):
  the map of providers with its round-robin cursors, its refinement of a relation, fairness over
  runs, and the interleavings that the reader/writer lock allows.
* **The storage list** (`Storage.dfy`): the NUL-separated list codec, and the loop that strips the
  base path from the paths of stored files.

Code that changes things in place is modelled by classes and methods, proved against functions on
values; the laws are lemmas about those functions. Exceptions are `Failure` values, and an index
out of range is a verification error. `dafny verify dfyconfig.toml` checks everything.

## How the code is read

* A C++ `char` is a Dafny `char`, in texts and on the wire. Nothing depends on the values of
  characters except the integer arguments, whose four bytes are proved to be below 256.
* In the patterns `.` matches every character, `\w` and `\s` are the ASCII classes, and `$` is the
  end of the text. `regex_replace` on a text that the pattern matches only in the middle keeps what
  surrounds the match; names and argument texts of invalid signatures are modelled with that.
* The YAML emitter and parser are library code. A header here is a map with optional entries and a
  line-oriented encoding that, like YAML's, contains no NUL. The order in which missing and bad
  entries are noticed is that of the code; the texts of those library errors are placeholders.
* A socket holds the bytes that will still arrive before the peer closes or the connection breaks,
  and delivers them in pieces of any size. `buffer + n` and `buffer_copy` stop at the end of the
  buffer, as in Asio. A `mutable_buffer` is an argument and an offset into it.
* Block sizes are converted to `int` and back to `unsigned int`, so they travel modulo 2^32.
* The four argument types are installed, as `setup()` does. The code of a service is an arbitrary
  function from its arguments to a response, a NULL or an exception.
* `std::map` iterates in the order of its keys; the loop of `deregisterServer` is proved for every
  order.

## Where the code falls short of a law

For each of these it is proved when the law holds, and that it can fail otherwise.

* A result of a concurrent lookup need not be registered: if there is another thread at all, a lookup
  can return any host of the list with any port of it, and nothing else
  (`RegistryThreads.PossibleResults`).
  All results are registered exactly if every host of the list is registered with every port
  (`RegistryThreads.RegisteredResults`); a state where that fails is reached by two registrations
  (`RegistryThreads.TornReachable`).
* String equality decides structure but not validity. A text shares the identity of a valid
  signature exactly if its name is a word and it has a parameter, and it need not be valid for that
  (`Signatures.SharedIdentity`); junk after the parameters is one way (`Signatures.IdentityIgnoresJunk`).
* The outputs of a complete success reach the client exactly if there is a status, the text of the
  response's signature stands for the outputs, and all sizes are below 2^32 (`Rpc.OutputsArrive`).
  The empty status is omitted by the writer and required by the reader; the text of a valid signature
  always stands for its types (`Rpc.ValidReaches`), but that of an invalid one need not, and then any
  argument can be lost (`Rpc.LostOutputs`). The same goes for requests (`Rpc.RequestShape`).
* A failed response loses its arguments (`Rpc.FailureArrives`).
* Bounded waiting holds for providers at or after the cursor; without removals the bound is exact
  (`RegistryRuns.ExactWaitInRegistry`), and a provider before the cursor has none
  (`RegistryRuns.StarvationInRegistry`). A removal of another provider lets a waiting one wait no longer
  than before exactly if it is not of an entry before the cursor while the provider is next and others
  remain (`RegistryRuns.RemovalExact`); that one sends it to the end of the queue
  (`RegistryRuns.LosesTurnInRegistry`).
* A listed name loads the file back exactly if going on from the base path through the components that
  normalizing did not keep leads back to the base (`Paths.NameLoadsBack`); for the base `a/../b` it does
  so exactly if `a` is `b` (`Paths.ParentInBase`). Here what paths pass through is taken to be
  directories, not symbolic links, so `..` undoes the component before it.

## Model

| member | source | states |
|---|---|---|
| Signatures.ScanArgGreedy | libssoa/src/service/servicesignature.cpp:16 | whenever the argument pattern can match at a position, the scanner matches with the same direction, type and blanks, and takes all blanks after a comma |
| Signatures.ScanSigGreedy | libssoa/src/service/servicesignature.cpp:15 | whenever the signature pattern can match at a position, the scanner reports the split that greedy backtracking tries first |
| Signatures.NoLaterIsTotal | libssoa/src/service/servicesignature.cpp:15 | the order in which the matcher tries splits is total |
| Signatures.SearchIsFirstMatch | libssoa/src/service/servicesignature.cpp:24-27 | the search gives the leftmost match with that split, and fails only if the pattern matches nowhere |
| Signatures.SearchOnlyOnce | libssoa/src/service/servicesignature.cpp:24-27 | after the first match there is no second one to replace |
| Signatures.WholeMatch | libssoa/src/service/servicesignature.cpp:22-23 | a split of the whole text exists exactly when the search matches all of it |
| Signatures.ParseArgs | libssoa/src/service/servicesignature.cpp:28-46 | the loop accumulates the joined parameters and the ordered input and output types of the scan, and says whether it reached the catch-all alternative |
| Signatures.Construct | libssoa/src/service/servicesignature.cpp:18-48 | the constructor computes the fields of the parsing function |
| Signatures.ParseComplete | libssoa/src/service/servicesignature.cpp:15-48 | a text that derives a name and parameters from the grammar is valid, and has that name, their canonical string and their ordered projections |
| Signatures.ParseSound | libssoa/src/service/servicesignature.cpp:15-48 | a valid text derives from the grammar |
| Signatures.ValidIffDerivable | libssoa/src/service/servicesignature.cpp:15-48 | validity is derivability, in both directions, and what is derived is unique |
| Signatures.LayoutIndependent | libssoa/src/service/servicesignature.cpp:18-48 | texts with the same tokens are one signature, whatever their blanks and trailing comma |
| Signatures.CanonicalRoundTrip | libssoa/src/service/servicesignature.cpp:38-47 | parsing the canonical string of a valid text gives every field again |
| Signatures.ValidIsStable | libssoa/src/service/servicesignature.cpp:38-47 | the same for every valid signature that a constructor built |
| Signatures.WildcardIsUnique | libssoa/api/ssoa/service/servicesignature.h:20-25 | no text parses to the wildcard: only the wildcard has its canonical string |
| Signatures.IdentityIsStructural | libssoa/api/ssoa/service/servicesignature.h:66-72 | a text is equal to a valid signature exactly when name and ordered directions and types coincide |
| Signatures.SharedIdentity | libssoa/src/service/servicesignature.cpp:32-47 | a text has the identity of some valid signature exactly if its name is a word and it lists a type; it is valid exactly if moreover it matched as a whole and the loop used up its parameters |
| Signatures.TailParsed | libssoa/src/service/servicesignature.cpp:32-47 | text after the parameters counts for the parameters that can be scanned from it, and for nothing else |
| Signatures.IdentityIgnoresJunk | libssoa/src/service/servicesignature.cpp:32-47 | such text leaves name, parameters and canonical string alone, and makes the signature invalid, exactly if no parameter can be scanned from it |
| Signatures.TypesLost | libssoa/src/service/servicesignature.cpp:24-47 | the canonical string of an invalid text need not stand for the types it lists |
| Signatures.TailAfterMatch | libssoa/src/service/servicesignature.cpp:24-27 | text after the closing parenthesis makes a text invalid and is left after the name and after the parameters |
| Signatures.TypesParts | libssoa/src/service/servicesignature.cpp:41-44 | types are listed in the order of the parameters, each in the list of its direction |
| Grammars.SpelledIsParsed | libssoa/src/service/servicesignature.cpp:15-48 | whatever is spelled out as blanks, name, parentheses, `in` or `out`, types and commas is valid, has the types after `in` as inputs and those after `out` as outputs, in order, and a canonical string with single blanks and no last comma |
| Grammars.ParsedIsSpelled | libssoa/src/service/servicesignature.cpp:15-48 | and nothing else is valid |
| Grammars.OneParameter | libssoa/src/service/servicesignature.cpp:36-47 | `F(in t)` has the input t and no output, `F(out t)` the output t and no input |
| Decimals.DecimalRoundTrip | libssoa/api/ssoa/service/serviceargument.h:66-70 | decimal texts of different numbers differ: reading back gives the number |
| Decimals.DecimalLength | libssoa/api/ssoa/service/serviceargument.h:66-70 | decimal texts have no leading zeros |
| Arguments.Prepare | libssoa/api/ssoa/service/serviceargument.h:46-72 | preparation succeeds exactly for a known type whose size is free or right, with that type and size |
| Arguments.PrepareByName | libssoa/api/ssoa/service/serviceargument.h:97-256 | an int takes four bytes, a double eight, a string and a buffer any number, and each name yields its kind |
| Arguments.PrepareErrors | libssoa/api/ssoa/service/serviceargument.h:63-71 | any other size is refused with the text that names both sizes, any other type with its name |
| Arguments.IntRoundTrip | libssoa/api/ssoa/service/serviceargument.h:83-115 | a 32-bit integer survives the conversion to network byte order and back |
| Arguments.NetworkOrder | libssoa/api/ssoa/service/serviceargument.h:83-84 | the four bytes of an int are its two's complement, the most significant first |
| Arguments.IntBytes | libssoa/api/ssoa/service/serviceargument.h:83-115 | and so do any four bytes the other way round |
| Headers.HeaderRoundTrip | libssoa/src/service/response.cpp:18-36 | decoding inverts encoding of every header, and no header contains the terminator |
| ArgumentQueues.Push | libssoa/api/ssoa/service/service.h:52-63 | a push succeeds exactly if an argument is missing and the next one has the type given |
| ArgumentQueues.Pop | libssoa/api/ssoa/service/service.h:76-95 | a pop succeeds exactly if all were pushed, some remain, and the front one has the type asked for |
| ArgumentQueues.Step | libssoa/api/ssoa/service/service.h:51-95 | a call that throws changes nothing |
| ArgumentQueues.QueueRun | libssoa/api/ssoa/service/service.h:51-95 | over any calls on a fresh queue: the pushes match the signature, pops return them in order, none before all were pushed, and the remaining ones are the suffix not popped |
| ArgumentQueues.FrontIndex | libssoa/api/ssoa/service/service.h:85-91 | the parameter that the error of a failed pop names is the one the front argument was pushed for |
| ArgumentQueues.PushErrors | libssoa/api/ssoa/service/service.h:54-60 | a failed push says that all were pushed, or which type is expected next |
| ArgumentQueues.PopErrors | libssoa/api/ssoa/service/service.h:78-91 | a failed pop says that some are missing, that none is left, or the type of the front argument |
| Messages.Service.PushArgument | libssoa/api/ssoa/service/service.h:51-63 | refines the push of the queue, records it, and leaves the object alone on an error |
| Messages.Service.PopArgument | libssoa/api/ssoa/service/service.h:75-95 | refines the pop of the queue, records it, and leaves the object alone on an error |
| Messages.Service.FromArguments | libssoa/api/ssoa/service/service.h:110-114 | the skeleton's constructor holds the received arguments as fully pushed |
| Messages.Service.GetConstBuffers | libssoa/src/service/service.cpp:15-44 | the header with its terminator, then the data of every argument; an error if some are missing |
| Messages.Response.PushArgument | libssoa/api/ssoa/service/response.h:72-84 | the same for the outputs of a response |
| Messages.Response.PopArgument | libssoa/api/ssoa/service/response.h:96-116 | the same for the outputs of a response |
| Messages.Response.ValidIsReply | libssoa/api/ssoa/service/response.h:72-84 | a response never holds more arguments than outputs, and if none is missing all have the right types |
| Messages.Response.GetConstBuffers | libssoa/src/service/response.cpp:11-44 | the header, without an empty status of a success, then the data; an error for an incomplete success |
| Messages.BlockList | libssoa/src/service/service.cpp:27-31 | the loop lists the size of every argument, converted to int |
| Messages.AddPayload | libssoa/src/service/service.cpp:38-41 | the loop appends the data of every argument in order |
| Messages.RequestLayout | libssoa/src/service/service.cpp:17-43 | a request is a header with the service and the sizes, a NUL, and the data in order; or how many arguments are missing |
| Messages.ResponseLayout | libssoa/src/service/response.cpp:13-43 | a response is a header with service, success, sizes and, unless a success has none, the status, then the data in order; or how many are missing |
| Messages.DeclaredSize | libssoa/src/service/service.cpp:27-31 | a size is declared as the int that is congruent to it modulo 2^32, itself below 2^31 |
| Payloads.CutPayload | libssoa/src/service/serviceskeleton.cpp:127-145 | cutting a payload, with anything after it, by the shapes sent gives back exactly the arguments sent |
| Payloads.PayloadCut | libssoa/src/service/serviceskeleton.cpp:127-145 | cutting loses no byte: the cut arguments flatten to the payload |
| Payloads.Conservation | libssoa/src/service/serviceskeleton.cpp:127-140 | bytes handed out and residual sizes add up to the blocks, and what no argument can hold is left in the buffer |
| Payloads.SocketFillsSuffix | libssoa/src/service/serviceskeleton.cpp:127-140 | after an argument that needs the socket no argument holds a fetched byte |
| Payloads.PrefetchIndependence | libssoa/src/service/serviceskeleton.cpp:123-145 | for every split of a payload into fetched and later bytes, scattering and filling cut the arguments from the whole payload |
| Preparation.PrepareArguments | libssoa/src/service/serviceskeleton.cpp:127-140 | the loop that prepares, copies, offsets and consumes computes the scattering of the prepared arguments, or the first preparation error |
| Preparation.ReadBlockSizes | libssoa/src/service/serviceskeleton.cpp:107-113 | the loop reads all sizes as unsigned, or fails on a missing or bad entry |
| Preparation.SizesRoundTrip | libssoa/src/service/service.cpp:27-31 | sizes arrive modulo 2^32 |
| Preparation.PreparedFits | libssoa/src/service/serviceskeleton.cpp:127-129 | prepared arguments have the types of the signature and the sizes of the header |
| Preparation.PreparedFor | libssoa/src/service/serviceskeleton.cpp:127-129 | arguments that match a signature can be prepared for, in their own shape |
| Preparation.FirstError | libssoa/src/service/serviceskeleton.cpp:127-129 | the error of the loop is that of the first argument that cannot be prepared |
| Preparation.SizesRead | libssoa/src/service/serviceskeleton.cpp:107-113 | sizes are read exactly if all are numbers, a negative one as 2^32 more |
| Connections.AnswerComplete | libssoa/src/service/serviceskeleton.cpp:161-184 | whatever an invocation ends in, what is sent is complete, and it is a success exactly if the service returned a complete success |
| Connections.RunShape | libssoa/src/service/serviceskeleton.cpp:76-196 | the only runs of a connection and what has been written and called in each |
| Connections.ConnectionSafety | libssoa/src/service/serviceskeleton.cpp:76-184 | in every run of events one write is started and only one; the service is called exactly when the payload arrived, once, on the whole of it; what is written is what the service returned or a refusal, and complete |
| Rpc.TakenApart | libssoa/src/service/service.cpp:34-43 | the first NUL of a message ends its header, and beyond it lies the payload |
| Rpc.ValidReaches | libssoa/src/service/serviceskeleton.cpp:93-98 | a valid signature is read as it was written, so it reaches every server that has it installed |
| Rpc.RequestShape | libssoa/src/service/serviceskeleton.cpp:76-129 | the server prepares for the shape that was sent exactly if it has a service under the signature it reads, with the same inputs, and every size is below 2^32 |
| Rpc.RequestArrives | libssoa/src/service/serviceskeleton.cpp:76-171 | a fully pushed request, with anything after it, makes the server run the service on exactly the arguments sent |
| Rpc.NotInstalled | libssoa/src/service/serviceskeleton.cpp:98-105 | a request for a service that is not installed is refused without reading its arguments, whatever the signature |
| Rpc.ResponseArrives | libssoa/api/ssoa/service/response.h:127-188 | the client decodes a success whose outputs can be read, throws for an empty status, and keeps only signature and status of a failure |
| Rpc.OutputsArrive | libssoa/api/ssoa/service/response.h:127-188 | outputs and status of a complete success arrive exactly if there is a status, the signature's text stands for the outputs, and the sizes fit |
| Rpc.LostOutputs | libssoa/api/ssoa/service/response.h:155-161 | a complete success whose signature was built from an invalid text can lose any argument |
| Rpc.FailureArrives | libssoa/api/ssoa/service/response.h:151-153 | a failed response arrives unchanged exactly if it had no arguments and its signature is read back |
| Rpc.Transparency | libssoa/src/service/serviceskeleton.cpp:76-171 | whatever the service does, the client receives what it would make of the response that a direct call leads to, errors included |
| Rpc.SuccessArrives | libssoa/api/ssoa/service/response.h:127-188 | outputs and status of a direct call that succeeds arrive exactly if they are complete, there is a status, the signature's text stands for the outputs and the sizes fit; the whole response exactly if moreover its signature is read back |
| Replies.ExceptionTold | libssoa/src/service/serviceskeleton.cpp:161-171 | the client of a service that throws is told "Internal server error: " and the text |
| Replies.NullTold | libssoa/src/service/serviceskeleton.cpp:173-177 | the client of a service that returns NULL is told so |
| Replies.FailureTold | libssoa/src/service/serviceskeleton.cpp:161-171 | the client of a service that reports a failure is told its status |
| Replies.IncompleteTold | libssoa/src/service/serviceskeleton.cpp:161-171 | the client of a service that leaves out outputs is told how many are missing |
| Replies.NotInstalledTold | libssoa/src/service/serviceskeleton.cpp:98-105 | the client that asks for a service that is not installed is told "Service not available." |
| Replies.NoHeader | libssoa/src/service/serviceskeleton.cpp:76-83 | a stream without a header is answered with the error of the read |
| Replies.BadHeader | libssoa/src/service/serviceskeleton.cpp:87-96 | and one with a header that names no service with what is wrong with it |
| Replies.UnknownTold | libssoa/src/service/serviceskeleton.cpp:98-105 | whatever else is in its header, a request for a service that is not installed is answered with "Service not available." |
| Replies.WrongCount | libssoa/src/service/serviceskeleton.cpp:115-121 | a wrong number of blocks is answered with the expected and the received number |
| Replies.WrongSize | libssoa/src/service/serviceskeleton.cpp:127-149 | a block that does not fit its type is answered with the error of the first such block |
| Replies.PayloadBroken | libssoa/src/service/serviceskeleton.cpp:152-159 | a payload that breaks off is answered with the error of the read |
| Replies.SocketFailures | libssoa/src/service/serviceskeleton.cpp:78-159 | so are the failures of single operations, in every state of the connection |
| Replies.BadResponse | libssoa/api/ssoa/service/response.h:127-141 | the client throws for a response that lacks a key, in the order of the keys |
| Replies.FailedResponse | libssoa/api/ssoa/service/response.h:151-153 | a failed response is decoded without its arguments |
| Replies.WrongResponseCount | libssoa/api/ssoa/service/response.h:155-161 | the client throws for a wrong number of blocks, with both numbers |
| Replies.WrongResponseSize | libssoa/api/ssoa/service/response.h:172-174 | and for the first block that does not fit its type |
| Replies.ResponseBroken | libssoa/api/ssoa/service/response.h:186 | and for a payload that breaks off |
| Endpoints.Socket.ReadUntil | libssoa/src/service/serviceskeleton.cpp:46-52 | fails exactly if no terminator will arrive; otherwise holds it and any number of bytes beyond, losing none |
| Endpoints.Connection.SendResponse | libssoa/src/service/serviceskeleton.cpp:173-184 | a NULL becomes a refusal, an incomplete success throws before anything is written, all else is written |
| Endpoints.Connection.OnHeaderReceived | libssoa/src/service/serviceskeleton.cpp:76-150 | takes the header step of the state machine |
| Endpoints.Connection.OnPayloadReceived | libssoa/src/service/serviceskeleton.cpp:152-171 | calls the service on the arguments and sends its response, or the error in its place |
| Endpoints.Connection.ReceivePayload | libssoa/src/service/serviceskeleton.cpp:142-171 | takes the payload step of the state machine with exactly the residual bytes |
| Endpoints.Connection.Run | libssoa/src/service/serviceskeleton.cpp:69-196 | for every way the network cuts up a stream, one message is written, the response to the stream |
| Endpoints.HeaderServed | libssoa/src/service/serviceskeleton.cpp:76-150 | however much was fetched with the header, the response owed is that to the whole stream |
| Endpoints.Deserialize | libssoa/api/ssoa/service/response.h:127-188 | for every way the network cuts up a stream, the client decodes the response in it or throws |
| Endpoints.RemoteCall | libssoa/src/service/servicestub.cpp:15-28 | a remote call over any network returns what the client decodes from the server's response to the request, errors included, and throws if arguments are missing; if the server understands the request and the response can be read, that is the response of the direct call |
| Registries.RegisterRefines | ssoa-registry/src/registryimpl.cpp:18-41 | adds one fact and says if it is new; fails, changing nothing, exactly for an invalid signature or one that contradicts the name |
| Registries.RegisterExact | ssoa-registry/src/registryimpl.cpp:18-41 | a new provider is appended to the list, the cursor and all other entries stay, and the texts of the two errors |
| Registries.DeregisterRefines | ssoa-registry/src/registryimpl.cpp:43-69 | removes one fact, or all about the provider for the wildcard, and says if there was any |
| Registries.DeregisterExact | ssoa-registry/src/registryimpl.cpp:43-69 | what becomes of every entry: the provider goes, the others keep their order, the cursor stays or returns to the start, an empty entry is erased |
| Registries.DeregisterServerRefines | ssoa-registry/src/registryimpl.cpp:71-96 | removes exactly the facts about the provider, returns how many services listed it, and then none does |
| Registries.DeregisterServerExact | ssoa-registry/src/registryimpl.cpp:71-96 | the same for every entry in batch removal |
| Registries.OthersOrder | ssoa-registry/src/registryimpl.cpp:55-60 | of two providers that stay the first stays first |
| Registries.LookupRefines | ssoa-registry/src/registryimpl.cpp:98-112 | returns a registered provider of the name exactly if there is one, and changes no fact |
| Registries.LookupExact | ssoa-registry/src/registryimpl.cpp:98-112 | a lookup returns the provider at the cursor, moves the cursor on, from the last to the first, and changes nothing else |
| Registries.BatchIsOneByOne | ssoa-registry/src/registryimpl.cpp:43-96 | batch removal is removal from the listing services one by one in any order: same entries, lists, cursors and count |
| Registries.RegisterDeregister | ssoa-registry/src/registryimpl.cpp:24-64 | deregistering a fresh registration restores the registry exactly |
| RegistryImplementation.RegistryImpl.RegisterService | ssoa-registry/src/registryimpl.cpp:18-41 | the method updates the map as the function does and keeps the invariant |
| RegistryImplementation.RegistryImpl.DeregisterService | ssoa-registry/src/registryimpl.cpp:43-69 | the same for deregistration |
| RegistryImplementation.RegistryImpl.DeregisterServer | ssoa-registry/src/registryimpl.cpp:71-96 | the two loops together drop the provider everywhere, in any iteration order |
| RegistryImplementation.RegistryImpl.RemoveFromLists | ssoa-registry/src/registryimpl.cpp:76-90 | the first loop shortens every listing entry, counts them and collects those left empty |
| RegistryImplementation.RegistryImpl.EraseEntries | ssoa-registry/src/registryimpl.cpp:91-94 | the second loop erases exactly the collected entries |
| RegistryImplementation.RegistryImpl.LookupService | ssoa-registry/src/registryimpl.cpp:98-112 | the method returns the provider at the cursor and moves the cursor |
| RegistryRuns.After | ssoa-registry/include/registryimpl.h:32-41 | every run keeps lists non-empty and free of duplicates, cursors in range, keys equal to the names of valid signatures |
| RegistryRuns.SignatureFixed | ssoa-registry/src/registryimpl.cpp:26-32 | a name's signature does not change as long as it has a provider |
| RegistryRuns.ApplySeen | ssoa-registry/src/registryimpl.cpp:18-112 | how every operation, also on other names and providers, acts on one entry |
| RegistryRuns.LookupsAreTurns | ssoa-registry/src/registryimpl.cpp:98-112 | consecutive lookups of a name are turns of its entry and touch no other |
| RegistryRuns.RoundRobinBalance | ssoa-registry/src/registryimpl.cpp:104-108 | among m consecutive lookups each of n providers is returned m/n times, rounded down or up |
| RegistryRuns.FullTurn | ssoa-registry/src/registryimpl.cpp:104-108 | n consecutive lookups return the list rotated to the cursor, and bring the cursor back |
| RegistryRuns.BalanceInRegistry | ssoa-registry/src/registryimpl.cpp:98-112 | among m consecutive lookups of a name each of its n providers is returned m/n times, rounded down or up |
| RegistryRuns.FullTurnInRegistry | ssoa-registry/src/registryimpl.cpp:98-112 | n consecutive lookups of a name return its list rotated to the cursor and leave the registry as it was |
| RegistryRuns.BoundedWaiting | ssoa-registry/src/registryimpl.cpp:33-108 | a provider at or after the cursor is returned within its distance plus one lookups, whatever is registered or benignly removed meanwhile |
| RegistryRuns.NotBefore | ssoa-registry/src/registryimpl.cpp:33-108 | and not earlier if nothing is removed |
| RegistryRuns.NewcomerWaits | ssoa-registry/src/registryimpl.cpp:33-38 | a freshly registered provider has such a bound |
| RegistryRuns.RemovalExact | ssoa-registry/src/registryimpl.cpp:55-60 | after the removal of another provider a waiting one still waits, and no longer than before, exactly if the removal is benign |
| RegistryRuns.LosesTurn | ssoa-registry/src/registryimpl.cpp:55-60 | removing an entry before the cursor sends the provider that is next to the end of the queue |
| RegistryRuns.LosesTurnInRegistry | ssoa-registry/src/registryimpl.cpp:43-112 | after any operation that does so, lookups of the name return that provider only after all others |
| RegistryRuns.Starvation | ssoa-registry/src/registryimpl.cpp:33-108 | a provider before the cursor can be kept waiting for any number of lookups by new registrations |
| RegistryRuns.BoundedWaitingInRegistry | ssoa-registry/src/registryimpl.cpp:18-112 | bounded waiting over whole runs of the registry, operations on other services included |
| RegistryRuns.ExactWaitInRegistry | ssoa-registry/src/registryimpl.cpp:33-108 | in runs without removals the provider is returned exactly when the lookups outnumber the providers from the cursor to it |
| RegistryRuns.NewcomerInRegistry | ssoa-registry/src/registryimpl.cpp:24-38 | a freshly registered provider waits, at the distance of the whole list from the cursor, or is next if the service is new |
| RegistryRuns.StarvationInRegistry | ssoa-registry/src/registryimpl.cpp:33-108 | a provider before the cursor can be kept from any number of lookups by registrations alone |
| RegistryThreads.MoveKeeps | ssoa-registry/src/registryimpl.cpp:100-110 | every step inside a critical section keeps the registry in order, and a lookup's steps change nothing but a cursor |
| RegistryThreads.EffectKeeps | ssoa-registry/src/registryimpl.cpp:100-110 | every step of every thread keeps all cursors, indices and found entries of all threads in range, and writers alone |
| RegistryThreads.RangeSafety | ssoa-registry/src/registryimpl.cpp:100-110 | so in every reachable state of any number of threads cursors, held indices and found entries are in range |
| RegistryThreads.HeldLists | ssoa-registry/src/registryimpl.cpp:100-110 | while a lookup holds the lock other threads change no entry and no list |
| RegistryThreads.UntornLookup | ssoa-registry/src/registryimpl.cpp:106-107 | whatever others do between the reads, the host is that at the cursor before and the port that at the cursor after; of one provider if no other lookup of the name stores the cursor |
| RegistryThreads.SoloLookup | ssoa-registry/src/registryimpl.cpp:98-112 | a lookup without interference is the atomic lookup |
| RegistryThreads.LookupEnds | ssoa-registry/src/registryimpl.cpp:98-112 | a lookup that runs on alone, from wherever it is, comes to its end and changes no list |
| RegistryThreads.TornLookup | ssoa-registry/src/registryimpl.cpp:106-107 | if there is another thread, whatever it is in the middle of, a lookup can return any provider's host with any provider's port |
| RegistryThreads.PossibleResults | ssoa-registry/src/registryimpl.cpp:98-112 | over all interleavings, a lookup returns exactly the pairs of a host and a port of the list |
| RegistryThreads.RegisteredResults | ssoa-registry/src/registryimpl.cpp:106-107 | all results of concurrent lookups are registered exactly if every host of the list is registered with every port |
| RegistryThreads.TornReachable | ssoa-registry/src/registryimpl.cpp:106-107 | a reachable state in which a lookup can return a pair that is not registered |
| RegistryThreads.NothingFound | ssoa-registry/src/registryimpl.cpp:100-112 | in all interleavings a lookup of a name that is not registered ends without a result |
| NameLists.PositionsExact | ssoa-storageprovider/api/storageprovider/getlistservice.h:52-64 | the positions are those of all maximal non-empty NUL-free stretches |
| NameLists.PositionsAscending | ssoa-storageprovider/api/storageprovider/getlistservice.h:52-64 | in order and once each |
| NameLists.SegmentsExact | ssoa-storageprovider/api/storageprovider/getlistservice.h:52-64 | the segments are the texts at those positions |
| NameLists.DecodeNames | ssoa-storageprovider/api/storageprovider/getlistservice.h:52-64 | for every buffer the loop stays in bounds, ends, and appends exactly the segments |
| NameLists.EncodeNames | ssoa-storageprovider/src/getlistserviceimpl.cpp:22-26 | the loop writes every name followed by a NUL |
| NameLists.NamesRoundTrip | ssoa-storageprovider/src/getlistserviceimpl.cpp:22-26 | decoding the encoding of a list gives it back exactly if its names are non-empty and free of NULs |
| Paths.StripBase | ssoa-storageprovider/src/storageservice.cpp:43-58 | the loop over two iterators computes the stripping, never reading past an end unnoticed |
| Paths.StripExact | ssoa-storageprovider/src/storageservice.cpp:43-62 | the base is matched with something left exactly for paths below it up to `.` components, and what is left denotes the remainder |
| Paths.StripLeaves | ssoa-storageprovider/src/storageservice.cpp:43-62 | wherever the loop stops, also where it gives up, what is left denotes what the paths do not have in common; it reads past the end only if nothing is left |
| Paths.StripRest | ssoa-storageprovider/src/storageservice.cpp:43-62 | what is left is the end of the path as it stands; for a path that begins with the base letter by letter, all that follows |
| Paths.PastEndExact | ssoa-storageprovider/src/storageservice.cpp:44-48 | the loop reads past the end exactly for an ancestor of the base, or for the base itself with fewer `.` at its end |
| Paths.GetList | ssoa-storageprovider/src/storageservice.cpp:40-66 | every path is listed under the text of what the loop leaves of it, in order |
| Paths.PathTextLast | ssoa-storageprovider/src/storageservice.cpp:59-62 | a component is appended after a slash, but the first without one; no components are the empty text |
| Paths.NameLoadsBack | ssoa-storageprovider/src/storageservice.cpp:40-74 | a listed name appended to the base leads to the listed file, from every working directory, exactly if the components of the base that normalizing did not keep lead from the base back to it; always if normalizing has not changed what the base denotes |
| Paths.ParentInBase | ssoa-storageprovider/src/storageservice.cpp:42-55 | with the base path `a/../b` listed names load back exactly if `a` is `b` |
| Paths.ListLoadsBack | ssoa-storageprovider/src/storageservice.cpp:40-74 | the names a client decodes are those that were listed, and all of them lead to the files found exactly under the same condition |
| Paths.ResolveLast | ssoa-storageprovider/src/storageservice.cpp:73-74 | where the last component of a path leads: nowhere, up, to the root, or down |

## Left out

- Headers.HeaderRoundTrip: is about a line-oriented codec with the same fields and no NUL, because the YAML emitter and parser are library code.
- The registry's own five YAML messages: they are field-by-field copies.
- Boost.Asio, listeners, thread pools, signals, logging: only byte streams, completions, errors and lock steps remain. `remote_endpoint()` is assumed not to throw.
- Preparation.PrepareArguments: does not model that the client keeps the number of fetched bytes in an `int`; Asio fetches far less than 2^31 bytes beyond a delimiter.
- NameLists.DecodeNames: does not model that the length of a name is kept in an `int`.
- Paths.NameLoadsBack: takes the normalized base path as given, assuming only that normalizing adds no components, that what paths pass through are directories, not symbolic links, and that the root directory is not part of what the loop leaves; `normalize()` is library code.
- Allocation failures, the internals of `double` (eight opaque bytes), exceptions that are not `std::exception`.
- Writes that fail after they were started: the callback only logs them.
- In-place storage: arguments are values that the loops rebuild, and a buffer into one is an index and an offset, so aliasing of argument storage is not captured.
- `StorageService::loadFile` and `saveFile` beyond the path they use, the image services, the command-line programs.
