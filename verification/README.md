# Verified model of the Iggy C++ client core

This project models, in Dafny 4.11, the three parts of the Iggy C++ client that carry logic of their own, and
proves what they keep over all inputs and all runs. `dafny verify dfyconfig.toml` checks it.

**Ownership of native TLS contexts.** Each `SSLContext` object holds a raw context pointer and a raw certificate
manager pointer, and its constructors, assignment operators and destructor allocate, move and free what they
point to. `Native.dfy` is the native library as far as the wrapper drives it; `Contexts.dfy` holds the classes,
updated in place; `SslWorld.dfy` is the state machine that the classes are tied to (`Program.Execute`,
`Program.Perform`), and the properties of runs are proved about it: `NativeLog.dfy` (what a disciplined log of
native calls is), `Ownership.dfy` (safety, initialisation, conservation), `OwnershipMap.dfy` (refinement of a
partial injective map from objects to handles), `ContextSettings.dfy` (settings, chains of moves, copies),
`CertManagers.dfy` (the second pointer), `NativeCalls.dfy` (the calls of each operation, spelled out),
`ConcurrentConstruction.dfy` (many threads inside the main constructor) and `Interleavings.dfy` (every interleaving
of them is a sequential run). `CipherList.dfy` is the joined cipher string and what can be read back from it.

**Text conversion.** `Utf8.dfy` is well-formed UTF-8 by sections 3 and 4 of RFC 3629, `Utf8Library.dfy` the two
library calls, `Serialization.dfy` the conversion.

**Protocols and addresses.** `Protocol.dfy` is name normalisation, `Provider.dfy` the registry built from a list
of definitions, `Numbers.dfy` decimal numbers in text, `Address.dfy` the address and the port it resolves to.

## What the model assumes of foreign code

- Native TLS library: an allocation returns null or a handle; setting the version or the cipher list of a context
  changes that context only; a null context has no certificate manager; the manager of a context lives and dies
  with it. Whether an allocation succeeds and whether a cipher list is accepted are parameters (`granted`,
  `accepted`). A handle is an allocation identity: an address handed out a second time is another handle.
- UTF-8 library: its source is not part of this model. The scanner is taken to accept exactly the well-formed
  strings of section 4 of RFC 3629, and the repairer to keep every character it can read and to write one
  replacement for bytes it cannot read. How many such bytes one replacement stands for is left open: every theorem
  holds for every `skip` function that takes at least one byte and none at which a character starts
  (`Utf8Library.Sound`). The one documented example holds for all of them (`Serialization.LoneContinuationByte`).
- C strings: a C function sees a string up to its first NUL (`CStrings.CString`). The model keeps this, so no
  theorem is restricted to NUL-free text unless it says so.
- URL parser: its result is a record of scheme with colon, host name and port text. What sections 4.2 and 4.4 of the
  WHATWG URL Standard say of it is `Address.Parsed` (a lowercase scheme and its colon, and no port or one printed in
  decimal), `Address.SchemeState` (which scheme as written leads to which scheme) and `Address.PortState` (which port
  digits lead to which port text), used only where they are named. `std::stoi` is modelled for all strings, and `tolower` in the "C" locale.

## Where the code does less than it promises

- `sdk/serialization.cc:7-8` returns the whole source after checking it up to its first NUL only. A source whose
  ill-formed bytes all lie behind a NUL passes even strict conversion: `StrictAcceptsIllFormed` gives one,
  `ResultWellFormedIff` the exact condition for all inputs.
- `sdk/net/crypto/ssl.cc:172-193`: the assignment operators replace `ctx` and leave `cm`. `CopyAssignmentDangles`
  and `MoveAssignmentDangles` give runs, for any versions and ciphers, that end with a manager of a freed context;
  `StepConsistentIff` and `RunConsistentIff` say exactly which assignments and which runs keep the two pointers
  together.
- `sdk/net/crypto/ssl.cc:128-132`: a constructor that throws after allocation leaks its context.
  `RejectedCipherListLeaks` gives the smallest run, for any version and ciphers. `Conservation` counts these contexts,
  `AllReclaimedIff` says when nothing is left behind, `LeaksArePermanent` that nothing later frees them.
- `sdk/net/crypto/ssl.cc:148-153, 173-181`: a copy does not take over what the main constructor explicitly set, the
  minimum version and the ciphers, nor the protocol family. `CopyLosesVersion` gives a run for any ciphers, whose copy
  is a TLS 1.3 context of a TLS 1.2 one; `CopyKeepsSettingsIff` says for which sources the explicit settings, and for
  which the family, are the same.
- `sdk/net/address.h:44-47` says that the default port is substituted if none is specified. It is also substituted if
  the scheme's own default port is specified, which the URL parser drops: `http://host:80` resolves to 3000.
  `GivenPortComesBackIff` gives the exact condition for any list of definitions, and `IggyPorts` shows that in the
  table of this library it concerns `http` with port 80 and nothing else.

## Model

| member | source | states |
|---|---|---|
| Native.Library.Allocate | sdk/net/crypto/ssl.cc:102-105 | an allocation yields null or a handle never seen before, live with nothing set on it, and is logged |
| Native.Library.Free | sdk/net/crypto/ssl.cc:165-170 | a free takes exactly the handle out of the live contexts and is logged whether or not it was live |
| Contexts.OnceFlag.CallOnce | sdk/net/crypto/ssl.cc:98-98 | the first call initialises the library, later ones do nothing |
| Contexts.SslContext.Construct | sdk/net/crypto/ssl.cc:92-133 | the main constructor leaves the library and the object, or the exception and no object, that the state machine says; `ConstructLiterally`, `ConstructRaisesLiterally` and `ConstructCalls` say by numbers and names what that is |
| Contexts.SslContext.Copy | sdk/net/crypto/ssl.cc:147-153 | a copy binds the same options and gets a new TLS 1.3 context, or null, with that context's manager |
| Contexts.SslContext.Move | sdk/net/crypto/ssl.cc:155-163 | both pointers move and the source holds neither |
| Contexts.SslContext.Destruct | sdk/net/crypto/ssl.cc:165-170 | what is held is freed, nothing otherwise |
| Contexts.SslContext.AssignCopy | sdk/net/crypto/ssl.cc:172-181 | self-assignment changes nothing; otherwise the old context is freed, a new one allocated, and the manager pointer stays |
| Contexts.SslContext.AssignMove | sdk/net/crypto/ssl.cc:183-193 | self-assignment changes nothing; otherwise the old context is freed, the source's context moves, both manager pointers stay |
| Contexts.Program.Execute | sdk/net/crypto/ssl.cc:92-193 | one operation on real objects, aliased or not, has exactly the effect of one step on all objects and the library, and raises what the step raises |
| Contexts.Program.Perform | sdk/net/crypto/ssl.cc:92-193 | any sequence of operations on real objects ends where the run of the state machine ends |
| NativeLog.UseFollowsCreation | sdk/net/crypto/ssl.cc:101-128 | in a disciplined log every call on a context follows the call that created it |
| NativeLog.NoUseAfterFree | sdk/net/crypto/ssl.cc:165-193 | in a disciplined log nothing is done with a context after it was freed, so none is freed twice |
| NativeCalls.ConstructCalls | sdk/net/crypto/ssl.cc:92-133 | the calls of a main construction in order: initialisation if it is the first, then by code 0 or 1 a TLS 1.2 or TLS 1.3 context with that minimum version, its manager and its ciphers; where it fails, one question for the error text and nothing freed |
| NativeCalls.CopyCalls | sdk/net/crypto/ssl.cc:147-153 | a copy asks for a TLS 1.3 context and for the manager of what it got, also of null |
| NativeCalls.MoveCalls | sdk/net/crypto/ssl.cc:155-163 | a move construction calls nothing |
| NativeCalls.DestroyCalls | sdk/net/crypto/ssl.cc:165-170 | a destruction frees what is held, and makes no other call |
| NativeCalls.CopyAssignCalls | sdk/net/crypto/ssl.cc:172-181 | a copy assignment frees first and allocates a TLS 1.3 context then; a self-assignment calls nothing |
| NativeCalls.MoveAssignCalls | sdk/net/crypto/ssl.cc:183-193 | a move assignment frees what the target held; a self-assignment calls nothing |
| Ownership.StepKeepsInv | sdk/net/crypto/ssl.cc:92-193 | every operation keeps the discipline, exclusive holding, and live = owned + leaked, leaking only where a cipher list is rejected |
| Ownership.EveryRunIsSafe | sdk/net/crypto/ssl.cc:92-193 | over every run: pointers of different objects differ and name live contexts; every use follows a creation; no use after free and no double free |
| Ownership.EveryCallIsSafe | sdk/net/crypto/ssl.cc:101-193 | the same by the names of the calls: over every run each call that sets a version or ciphers on a context, asks for its manager or frees it follows the call that returned it, and no free of it |
| Ownership.EveryContextIsNew | sdk/net/crypto/ssl.cc:101-180 | over every run no two allocations return the same context identity |
| Ownership.InitialisedOnceAndFirst | sdk/net/crypto/ssl.cc:97-98 | over every run the library is initialised before any other call and only once, although copies and assignments never look at the flag |
| Ownership.InitialisedIff | sdk/net/crypto/ssl.cc:195-196 | it is initialised in exactly the runs with a main construction, successful or not |
| Ownership.Conservation | sdk/net/crypto/ssl.cc:101-193 | after any run the live contexts are exactly the owned ones plus one for each construction whose cipher list was rejected |
| Ownership.RejectedCipherListLeaks | sdk/net/crypto/ssl.cc:128-132 | one rejected construction, of any version and ciphers, leaves a live context and no object |
| Ownership.LeakedCount | sdk/net/crypto/ssl.cc:128-132 | rejected constructions leak pairwise different contexts |
| Ownership.AllReclaimedIff | sdk/net/crypto/ssl.cc:128-170 | with every object destroyed no context is live exactly if no cipher list was rejected after allocation |
| Ownership.LeaksArePermanent | sdk/net/crypto/ssl.cc:128-132 | no continuation of a run ever frees a leaked context |
| OwnershipMap.StepRefines | sdk/net/crypto/ssl.cc:92-193 | every operation is the corresponding step on a map from objects to handles: take a fresh handle, waste one, drop, relabel, drop then take or relabel |
| OwnershipMap.RunRefines | sdk/net/crypto/ssl.cc:92-193 | so is every run, including the order in which handles are freed |
| OwnershipMap.StepSound | sdk/net/crypto/ssl.cc:147-193 | the map stays injective, frees nothing twice and owns nothing freed |
| OwnershipMap.EveryRunIsAnOwnershipRun | sdk/net/crypto/ssl.cc:92-193 | both together, for every run from the start |
| OwnershipMap.AbstractLiterally | sdk/net/crypto/ssl.cc:92-193 | the map is what the context pointers name, and its freed handles are the free calls of the log, all of them, each as often and in the order in which it was made |
| ContextSettings.RunKeepsContext | sdk/net/crypto/ssl.cc:101-128 | no run changes the settings of a context that existed before it, or revives one |
| ContextSettings.ConstructRaisesLiterally | sdk/net/crypto/ssl.cc:98-133 | the exception by the numbers: the version error with the code for every code but 0 and 1, then allocation, then ciphers, otherwise none |
| ContextSettings.ConstructLiterally | sdk/net/crypto/ssl.cc:98-133 | in every reachable state a construction that does not throw has code 0 or 1 and gives its object a new context: TLS 1.2 with minimum TLS 1.2 for 0, TLS 1.3 with minimum TLS 1.3 for 1, the empty cipher string for no names; no other object or context changes |
| ContextSettings.MadeContextKeepsSettings | sdk/net/crypto/ssl.cc:100-193 | through any later run that context is live exactly while one object holds it, never two, with the same settings, and when it is not live it has been freed |
| ContextSettings.NamesReadBack | sdk/net/crypto/ssl.cc:119-128 | any later holder can split the installed string back into the requested names exactly when the list is non-empty and free of colons and NULs |
| ContextSettings.MoveChain | sdk/net/crypto/ssl.cc:155-192 | any chain of move constructions and move assignments, self-moves included, carries the context from the first object to the last, settings unchanged, no other holder |
| ContextSettings.CopyKeepsSettingsIff | sdk/net/crypto/ssl.cc:147-181 | a copy has a context of its own beside the source's; the explicitly set minimum version and ciphers are equal exactly when no main construction made the source's, the protocol family exactly when the source's is TLS 1.3 |
| ContextSettings.CopyLosesVersion | sdk/net/crypto/ssl.cc:147-153 | for any ciphers: a copy of an object constructed for TLS 1.2 has a TLS 1.3 context with nothing set on it |
| CertManagers.StepConsistentIff | sdk/net/crypto/ssl.cc:117-193 | a step keeps every manager pointer that of its own context exactly unless it assigns between different objects and a pointer is replaced |
| CertManagers.RunConsistentIff | sdk/net/crypto/ssl.cc:147-193 | a run keeps them right throughout exactly if none of its steps is such an assignment |
| CertManagers.ConsistentWithoutAssignment | sdk/net/crypto/ssl.cc:117-170 | in runs of constructions and destructions every manager is right, and null exactly when the context is |
| CertManagers.CopyAssignmentDangles | sdk/net/crypto/ssl.cc:172-181 | for any versions and ciphers: two constructions and a copy assignment end with a manager of a freed context |
| CertManagers.MoveAssignmentDangles | sdk/net/crypto/ssl.cc:183-193 | the same with a move assignment, whose source keeps the manager of the context it gave away |
| CertManagers.ManagerAfter | sdk/net/crypto/ssl.cc:117-193 | after any step, where every object's manager pointer comes from: a new context's own, the source's by move construction, and unchanged by every assignment |
| CertManagers.MovesCarryManager | sdk/net/crypto/ssl.cc:155-163 | any chain of move constructions carries both pointers to the last object, also where an assignment has separated them, and leaves the first with neither |
| ConcurrentConstruction.InitialisedOnce | sdk/net/crypto/ssl.cc:97-98 | for any number of threads inside the main constructor, interleaved call by call, initialisation comes first and once and every call is on a live context |
| ConcurrentConstruction.ConstructionsAreSeparate | sdk/net/crypto/ssl.cc:98-133 | every thread that obtains an object holds a context of its own with the settings it asked for |
| ConcurrentConstruction.SomeThreadIsReady | sdk/net/crypto/ssl.cc:98-98 | waiting at the once flag cannot deadlock |
| ConcurrentConstruction.WaitsOnlyForInitialisation | sdk/net/crypto/ssl.cc:98-98 | in every reachable state a thread that is not done can go on, whatever the answer, unless it has yet to pass the flag and another thread is initialising |
| ConcurrentConstruction.EveryScheduleCanFinish | sdk/net/crypto/ssl.cc:98-133 | from wherever any threads have got to, all of them can get done, in at most seven steps each and whatever the environment answers |
| ConcurrentConstruction.ConstructsWhatItBegan | sdk/net/crypto/ssl.cc:92-96 | over any schedule a thread keeps the version and the names that its construction began with |
| ConcurrentConstruction.ScheduleConcat | sdk/net/crypto/ssl.cc:98-133 | schedules compose: the second part goes on from where the first one ends |
| ConcurrentConstruction.AloneIsSequential | sdk/net/crypto/ssl.cc:92-133 | the single calls of one undisturbed thread add up to the one step of the sequential model, result and library |
| Interleavings.ConcurrentConservation | sdk/net/crypto/ssl.cc:98-133 | in any interleaving the live contexts are exactly those of threads in progress, those of obtained objects, and one for each rejected thread |
| Interleavings.InterleavingIsSequential | sdk/net/crypto/ssl.cc:98-133 | when all threads are done, contexts, settings, next handle and objects are those of the sequential run of the same constructions in the order of their allocations |
| Interleavings.EachThreadIsOneConstruction | sdk/net/crypto/ssl.cc:98-133 | every thread stands for exactly one construction of that run, with its code and names; it has an object exactly if the code is 0 or 1, the allocation was granted and the ciphers accepted, and otherwise the exception for the first of these that failed |
| CipherList.SplitJoinIff | sdk/net/crypto/ssl.cc:119-127 | splitting at colons undoes the join exactly for non-empty lists of colon-free names |
| CipherList.JoinSplit | sdk/net/crypto/ssl.cc:119-127 | joining the fields of any string gives the string back |
| CipherList.JoinInjective | sdk/net/crypto/ssl.cc:119-127 | different non-empty lists of colon-free names join differently |
| CipherList.JoinLength | sdk/net/crypto/ssl.cc:119-127 | the joined string has the names' total length and one colon less than there are names |
| CipherList.InstalledReadsBackIff | sdk/net/crypto/ssl.cc:119-128 | what the library receives as a C string splits back into the names exactly for non-empty, colon-free and NUL-free lists |
| CipherList.InstalledLiterally | sdk/net/crypto/ssl.cc:119-128 | spelled out: "" for no names, a single name as it is, first name, ":" and the rest for more; cut at the first character with code 0 and nowhere else |
| CStrings.CStringIsUnique | sdk/serialization.cc:7-14 | the text a C function sees is determined by being a NUL-free prefix that ends at a NUL or at the end |
| Utf8.ScanDecides | sdk/serialization.cc:7-7 | the left-to-right scan without backtracking accepts exactly the concatenations of characters of section 4 of RFC 3629 |
| Utf8.WellFormedIffEncodes | sdk/serialization.cc:7-7 | a string is well formed exactly when it encodes a sequence of code points by section 3 of RFC 3629, and then only one |
| Utf8.FormsLiterally | sdk/serialization.cc:7-7 | by the numbers: the one to four byte forms are accepted for exactly the code points that need them, so no longer forms, no surrogates U+D800 to U+DFFF, nothing above U+10FFFF |
| Utf8Library.OneByteEach | sdk/serialization.cc:15-15 | one replacement for every unreadable byte is an admissible grouping, so the assumption about the library can be met |
| Utf8Library.Validate | sdk/serialization.cc:7-7 | the scanner accepts exactly well-formed text; otherwise it names the offset where the longest readable prefix ends |
| Utf8Library.MakeValid | sdk/serialization.cc:15-15 | the in-place repair of the buffer yields the repaired text, never reads behind where it writes, terminates, and touches nothing behind the old terminator |
| Utf8Library.Repair | sdk/serialization.cc:13-16 | repair lengthens nothing and introduces no NUL |
| Utf8Library.RepairWellFormed | sdk/serialization.cc:15-16 | repaired text is well formed, whatever went in |
| Utf8Library.RepairKeepsPrefix | sdk/serialization.cc:15-16 | repair(a + b) = a + repair(b) for well-formed a |
| Utf8Library.RepairIsIdentityIff | sdk/serialization.cc:15-16 | repair leaves exactly the well-formed strings alone |
| Utf8Library.RepairKeepsReadable | sdk/serialization.cc:15-16 | apart from question marks, input and output have the same readable characters in the same order |
| Utf8Library.RepairByPieces | sdk/serialization.cc:13-16 | any input divides into characters and unreadable bytes so that repair writes each character as it is and the byte 0x3F for each stretch of the others, and nothing else |
| Serialization.PrintInto | sdk/serialization.cc:13-14 | the formatted copy fits the buffer of size + 1 and is the seen text, terminated |
| Serialization.ConvertToUtf8 | sdk/serialization.cc:6-19 | the conversion with its buffer computes the specified result on all three branches |
| Serialization.SeenLiterally | sdk/serialization.cc:7-14 | what the library sees is all of a text without byte 0, and otherwise what stands before its first byte 0 |
| Serialization.ConvertedByPieces | sdk/serialization.cc:12-16 | where the conversion repairs, every byte it writes that was not read as part of a character is 0x3F |
| Serialization.StrictSucceedsIff | sdk/serialization.cc:7-11 | strict conversion succeeds exactly on sources whose seen part is well formed, for NUL-free ones exactly on the well-formed, and then agrees with non-strict and the input; otherwise its error carries the whole source |
| Serialization.ResultWellFormedIff | sdk/serialization.cc:7-16 | the result is well formed unless what is seen is well formed and what lies behind it, from the first NUL on, is not |
| Serialization.NulFreeResultWellFormed | sdk/serialization.cc:6-19 | for NUL-free sources it always is |
| Serialization.StrictAcceptsIllFormed | sdk/serialization.cc:7-8 | an ill-formed source that strict conversion returns unchanged |
| Serialization.ConvertingAgain | sdk/serialization.cc:6-19 | converting a result again, strictly or not, succeeds and changes nothing |
| Serialization.ConversionKeepsPrefix | sdk/serialization.cc:6-19 | non-strict conversion keeps a well-formed beginning byte for byte and converts what follows as if it stood alone; behind a NUL in the beginning it keeps everything |
| Serialization.NonStrictKeepsText | sdk/serialization.cc:12-16 | non-strict conversion never fails, never lengthens, and loses no readable character of what it sees |
| Serialization.GroupingDoesNotMatter | sdk/serialization.cc:15-15 | two libraries that group unreadable bytes differently differ in question marks only |
| Serialization.LoneContinuationByte | tests/serialization_test.cc:9-15 | the documented example with its byte 0x3F, for any well-formed text before the byte 0x80 and any text after it whose seen part is well formed; strict conversion refuses it |
| Serialization.LoneUnreadableByte | sdk/serialization.cc:12-16 | any single unreadable byte between any two well-formed texts becomes 0x3F, and both texts stay |
| Protocol.NormalizeProtocolName | sdk/net/protocol.cc:8-24 | lowering in place and cutting between the first and last non-space gives the canonical form, or the error for a blank name; `NormalizedLiterally` and `EmptyNameLiterally` give both by code points |
| Protocol.NormalizedLiterally | sdk/net/protocol.cc:8-24 | by code points: out of any padding with 9 to 13 and 32 the core comes back, with 65 to 90 moved up by 32 and every other character as it was |
| Protocol.EmptyNameLiterally | sdk/net/protocol.cc:14-23 | the error for exactly the strings of code points 9 to 13 and 32, the empty one included; there is no other error |
| Protocol.LowerInPlace | sdk/net/protocol.cc:10-11 | the in-place transform lowers every character |
| Protocol.Between | sdk/net/protocol.cc:14-23 | the substring bounds are valid and cut out the trimmed string |
| Protocol.LowerTrim | sdk/net/protocol.cc:9-23 | lowering and trimming commute |
| Protocol.CanonicalIff | sdk/net/protocol.cc:8-24 | normalisation leaves exactly the non-empty names without outer white space and capitals alone |
| Protocol.NormalizedIsCanonical | sdk/net/protocol.cc:8-24 | normalising twice is normalising once |
| Protocol.SameNameIff | sdk/net/protocol.cc:8-24 | two non-blank names normalise equally exactly when they are equal up to letter case and padding |
| Protocol.DefinedIsWellMade | sdk/net/protocol.h:37-46 | every constructed definition carries a canonical name |
| Protocol.DefineAllIff | sdk/net/protocol.h:37-46 | a list of definitions can be constructed exactly if no name in it is blank, and then has one definition for each declaration, in order: the canonical name, and port, transport, TLS flag and encoding as declared; otherwise the blank-name error |
| Provider.IggyProtocolProvider.constructor | sdk/net/iggy.cc:3-7 | the map built from any list answers every name as a scan for the last definition of that name does |
| Provider.IggyProtocolProvider.GetProtocolDefinition | sdk/net/iggy.cc:13-21 | the lookup returns what the scan finds for the canonical name, or the error of `FindErrors` |
| Provider.IggyProtocolProvider.IsSupported | sdk/net/iggy.cc:23-25 | true exactly when the lookup would succeed; a blank name is an error |
| Provider.LastNamedIff | sdk/net/iggy.cc:3-7 | the scan finds a definition exactly when it has the name and no later one does |
| Provider.IndexOfDistinct | sdk/net/iggy.cc:3-7 | with distinct names the map has exactly the definitions of the list, each under its name |
| Provider.KeysAreNames | sdk/net/iggy.cc:4-6 | every entry is stored under its own name and comes from the list |
| Provider.FindIff | sdk/net/iggy.cc:13-21 | a lookup finds a definition exactly for the spellings of its name in any case and padding |
| Provider.FindSucceedsIff | sdk/net/iggy.cc:13-25 | a lookup succeeds exactly when the name spells that of some definition, and returns such a one |
| Provider.FindErrors | sdk/net/iggy.cc:13-21 | the blank-name error for exactly the strings of white space by code points; "unsupported", with the name as spelled, for exactly the others that spell no listed name |
| Provider.DeclaredIsFoundIff | sdk/net/iggy.cc:3-21 | of definitions constructed from declared names, no two of them the same name, a lookup finds the i-th exactly for the spellings of the i-th name as declared, with the port, transport, TLS flag and encoding declared there |
| Provider.IggyTable | sdk/net/iggy.h:29-34 | each constructed entry of the table is found by exactly the spellings of its name |
| Provider.IggyLiterally | sdk/net/iggy.h:9-34 | the table spelled out: the spellings of "quic", "tcp", "tcp+tls", "http" and "http+tls" are answered with ports 8080, 8090, 8090, 3000, 3000 and their transports, TLS flags and encodings, and every other name that is not blank with "unsupported" |
| Address.LogicalAddress.Create | sdk/net/address.cc:7-20 | an address is made, valid and bound to the URL and the provider, exactly when the specification says, with its error otherwise |
| Address.LogicalAddress.GetPort | sdk/net/address.cc:22-35 | the port computed through the provider is the specified one; a valid address fails only in its port text, and with a parsed URL never |
| Address.CreationIff | sdk/net/address.cc:7-20 | an address can be made exactly of a parsed URL whose scheme spells a listed name; parsing error, blank-name error and "unsupported" with the protocol have exactly their causes |
| Address.PortOfAddress | sdk/net/address.cc:22-35 | a created address cannot fail for its protocol when asked for its port; with a URL from the parser it cannot fail at all, so the range check is never taken |
| Address.DefaultPort | sdk/net/address.cc:23-24 | without a port the default of the definition that the scheme spells |
| Address.GivenPort | sdk/net/address.cc:25-34 | digits of any length give their exact value up to 65535 and out-of-range above, by overflow or by the check |
| Address.PortResolvesIff | sdk/net/address.cc:22-35 | a created address whose port text is empty or digits has a port exactly when that is at most 65535 |
| Address.PortInvertsPrinting | sdk/net/address.cc:25-34 | reading a port inverts printing it on 0..65535 |
| Address.GivenPortComesBackIff | sdk/net/address.h:44-47 | for any list of definitions, port digits in a URL come back as their value unless that is the scheme's own default port and not the definition's |
| Address.MissingPortIsDefault | sdk/net/address.h:44-47 | without digits the definition's default port is substituted |
| Address.IggyPorts | sdk/net/iggy.h:29-34 | of the five protocols and all ports exactly `http` with 80 does not come back; it resolves to 3000 |
| Address.IggyDefaultPorts | sdk/net/iggy.h:9-34 | on any host, without a port, the addresses of quic, tcp, tcp+tls, http and http+tls resolve to 8080, 8090, 8090, 3000 and 3000 |
| Address.DroppedPorts | sdk/net/address.h:44-47 | the ports that the parser drops, by the numbers of the five special schemes, and those it refuses, from 65536 on |
| Address.PortStateIsParsed | sdk/net/address.cc:8-12 | what the port state delivers satisfies what is assumed of a parsed URL |
| Numbers.StoiReads | sdk/net/address.cc:26-26 | number reading in general: padding, sign, digits, ignored rest, and the 32-bit range |
| Numbers.StoiReadsIff | sdk/net/address.cc:26-26 | there is a number to read exactly in texts of that form |
| Numbers.StoiLiterally | sdk/net/address.cc:26-26 | the value read from any text, exactly if it lies between -2147483648 and 2147483647; out of range otherwise; invalid exactly without a number |
| Numbers.ValueLiterally | sdk/net/address.cc:26-26 | digits are the code points 48 to 57, and a further digit makes ten times the value and itself |
| Numbers.PrintIsShortest | sdk/net/address.cc:8-12 | a printed port has no leading zero |
| Address.PortIsExact | sdk/net/address.cc:25-34 | any port text gives the port p exactly if it reads as padding, sign, digits and rest with the value p, so narrowing changes no port |
| Address.PortErrors | sdk/net/address.cc:22-35 | each error of the port exactly when: invalid for a text with nothing to read, out of range for a number outside 0 to 65535 however long, and without a port text the two errors of the lookup |
| Address.ProtocolOfParsed | sdk/net/address.h:34-37 | exactly the colon of a parsed scheme is dropped, and the protocol that is left is in canonical form |
| Address.LastIsDropped | sdk/net/address.h:34-37 | of any scheme text that is not empty exactly the last character is dropped, colon or not |
| Address.SchemeStateIff | sdk/net/address.h:34-37 | the scheme as it is written in a URL is a spelling of the protocol: what the parser's lowering delivers is what normalising it gives, and exactly the texts of scheme form are delivered |
| Address.ProtocolIsListed | sdk/net/address.h:31-37 | the guarantee: an address can be made of a parsed URL exactly if its protocol is, letter for letter, the name of a listed definition, and it is refused for no other reason |
| Address.ProtocolIsListedIff | sdk/net/address.h:31-37 | for any scheme text, also one no parser delivers, a created address has a supported protocol, and it is literally a listed name exactly when it is canonical |

## Left out

- Handshakes, cryptography and the acceptance rules of the native TLS library: foreign code.
- Threads other than inside the main constructor: copies, moves, assignments and destructions are one step each, and
  concurrent use of one object is not modelled (the class has no locks).
- The blocking of `std::call_once` is a state of the flag, not a model of its implementation.
- Reference members: `options` is kept as a reference and copied by copies and moves; `pkiEnv`, which nothing reads,
  and the lifetimes of both are left out.
- The default cipher tables under `#if`, `getProtocolVersionName` and `SSLOptions::validate`: finite case tables.
- The texts of exceptions, except the name in "Unsupported protocol" and the bytes of the refused source.
- `convertToUTF8` never frees its buffer; the C++ heap is not modelled.
- URL parsing and host names: the parsed record is taken as given, and nothing is claimed of the URL's own text.
- `tolower` outside the "C" locale.
- `createAddress`, `getHost`, `getSupportedProtocols` and the other getters: they return what they are given.
- Certificate and key stores, the PKI configuration tree, the model and command value objects, the client process
  launcher: setters, getters, file access and stubs.
- The wire format: declared in the repository, with no encoder or decoder.
