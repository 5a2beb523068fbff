# Verified model of the robomotion-go runtime

robomotion-go is the Go runtime that a Robomotion package links against. A package runs either as a
gRPC plugin of a robot or as a command-line tool, with an optional background session. This project
models the parts of that runtime whose correctness depends on order, interleaving or exact arithmetic,
and proves what they keep. Dafny 4.11 checks it with `dafny verify dfyconfig.toml`.

| files | what they model |
|---|---|
| `Lifecycle`, `Shutdown`, `ShutdownTheorems`, `SweepTheorems`, `SignalRaces`, `SoloCalls`, `LifecycleRuns` | concurrent `OnCreate`, `OnMessage`, `OnClose`, `OnSetup`, `Init`, the daemon's inactivity sweep and outside stop signals as a state machine of atomic steps over the handler table, the 32-bit counter `nc`, the `initReady` gate and the one-slot `done` channel; runs are arbitrary interleavings |
| `Server`, `Session` | the same RPCs as methods of a class, proved to do what the state machine does when one call or the sweep moves alone; the session client with its list of node guids, closing a session, and the inactivity timer |
| `MessageContext`, `ToolProtocol`, `ToolReplies`, `ToolTheorems` | the message context and the wrapper that answers an agent's tool request; a node's handler is an arbitrary sequence of context operations |
| `GoStrings`, `Flags`, `NodeTypes`, `CliRouting`, `InVariables`, `CliPipeline`, `CliCommands` | the command line from arguments to flags, to message data and node configuration, to what a node's variables read; the command listing |
| `SpecTags`, `SpecSections` | the two parsers of a field's `spec` tag; the spec generator's three parallel views |
| `ValueBridge`, `Float64` | Go values to protobuf values and back; integers through a float64 |
| `VaultCrypto`, `VaultsFile` | key shares, CBC decryption and padding; the `.vaults` file |

A method that loops or changes state in Go is a method here, proved equal to a specification function;
the properties are lemmas about those functions. Library code appears as function parameters whose laws
are stated where they are used: `strcase`, JSON coding of string lists, base64, the AES block cipher and
`fmt.Sprint`; `Laws` shows for each law that something meets it.

## What the code does where its documentation says otherwise

- A session is documented to end when its last node is closed (`runtime/cli_session.go:111`, `:244`).
  In session mode `OnClose` never signals `done`, so closing a session leaves the daemon running until
  the inactivity timeout (`ShutdownTheorems.SessionNeverSignals`, `Session.ClientAndDaemonAgree`).
- A toolkit node is documented to get an automatic reply
  (`docs/toolkit-skill-provider.md:302-322`). The wrapper only looks for a field named `Tool`, so a
  toolkit handler that does not reply leaves the agent waiting (`ToolTheorems.ToolkitSilent`).
- Command-line variables are documented as always message-scoped (`docs/package-cli.md:647`). A flag for
  a variable of Message or Custom scope arrives; in every other scope, AI included, the value is put in
  the message but the variable is never configured to look for it (`CliPipeline.DeliveredIff`).
- `markHidden` is documented to reach whatever a package hides (`runtime/spec.go:588-601`). Plain
  `option` fields never reach it (`SpecSections.HiddenIff`).

## Properties that hold only under a condition

- A live node is one whose create was counted and which no `OnClose` has taken off the counter. The
  counter equals their number exactly when no close has decremented it for a node whose create was never
  counted and no sweep has decremented it at all (`CounterIsLiveIff`). Closing a node whose create failed
  breaks it and signals shutdown while another node runs (`FailedCloseSignalsEarly`): any close signals
  exactly when as many nodes are live as closes hit an uncounted node (`SignalsIff`).
- A setup that reuses a running node's guid takes its handler away; the node then stays counted in every
  continuation that does not register the guid again (`SetupStrandsNode`, `SetupCollisionMissesShutdown`).
- The inactivity sweep closes a handler without removing it. A close that overlaps the sweep's turn for
  that node or follows it runs the handler's `OnClose` a second time and decrements again, and only such
  a close does (`ClosedTwiceIff`); the counter can then go negative (`SweptNodeClosedAgain`,
  `CounterIsLive`).
- A close that reads a zero counter decides correctly (`ShutdownNotEarly`), but reading and sending are
  two steps. If the host never has a create outstanding while a close is, every send happens with no node
  live (`SendsAreQuiet`); otherwise the calls already there can bring a close to send while a node is
  live exactly when a node is live or a create has not returned (`SendRacesIff`, `SignalRacesCreate`).
- The inactivity timer fires only after a full idle timeout, but an RPC that arrives between the firing
  and the sweep does not stop the sweep (`SweepAfterFullTimeout`, `SweepRacesRpc`).
- A handler that does not put the request marker back after a reply of its own replies at most once
  (`AtMostOneReply`). In general the number of replies follows from the handler's operations and from
  whether the request is marked and names an agent (`ReplyCount`): at most one leaves exactly when the
  context is never armed again between a reply and the next try (`AtMostOneReplyIff`), and putting marker
  and agent back always costs a second one (`RearmingRepliesAgain`). A handler that sets no routing key and
  restores no request after replying replies exactly once, unless it discards the request first, then never
  (`ExactlyOneReplyIff`).
- A tool request stops flowing exactly when the handler leaves no document behind that is not a request
  (`FlowStopsIff`); for a handler that keeps the marker, exactly when it writes nothing after a reply of its
  own, or puts a whole marked document in place after it (`FlowStopsUnlessWrittenIff`).
- Flag order is irrelevant exactly when no two flags put different things in one place
  (`OrderIrrelevantIff`); only unknown flags can collide with a declared one (`KnownFlagsConsistent`,
  `FallbackCollides`).
- Flags parse back as printed exactly when no key has an equals sign and no value written as its own argument
  starts with two dashes (`PrintParseIff`).
- The two tag parsers agree exactly on tags where no entry starts with a space (`ParsersAgreeIff`).
- A robot's capability mask is negotiated exactly with every package exactly when it fits a 53-bit
  significand, as all masks up to bit 52 do; beyond that a capability both sides have can be rounded away
  (`NegotiationExactIff`, `HighBitLosesLmo`).
- What `GetVariable` returned can be written back unchanged exactly when it is nil, a scalar, or a
  non-empty list or map of strings (`ResendPreservesIff`).

## Model

| member | source | states |
|---|---|---|
| Shutdown.StepAccounted | runtime/grpc.go:80-215 | every step of every interleaving keeps the table size and the wrapped counter equal to what the calls account for |
| Shutdown.StepTable | runtime/handler.go:26-50 | every step keeps: a guid is in the table exactly when its owner registered it and no close removed it |
| ShutdownTheorems.ExactAccounting | runtime/grpc.go:80-215 | in every reachable state of plugin or daemon, table = counted nodes less orphaned closes + failed creates + creates, closes and setups in flight; nc is the counted nodes less orphaned closes and sweep decrements, in 32 bits |
| ShutdownTheorems.CounterIsLiveIff | runtime/grpc.go:109-163 | nc is the number of live nodes iff no close hit a node that was never counted and no sweep decremented |
| ShutdownTheorems.CounterIsLive | runtime/grpc.go:80-174 | if closes follow successful creates, nc is live nodes less sweep decrements: never negative in a plugin, negative in a daemon iff the sweep took off more than are live; OnCreate never meets a vanished handler |
| ShutdownTheorems.ShutdownNotMissed | runtime/grpc.go:155-174 | once all calls returned with no node live, some close has signalled done, whatever signals and lost connections sent besides |
| ShutdownTheorems.ShutdownNotEarly | runtime/grpc.go:164-166 | a close decides to signal iff, outside session mode, no node is live when it reads the counter |
| ShutdownTheorems.SignalsIff | runtime/grpc.go:164-166 | for any disciplined host a close decides to signal iff, outside session mode, live nodes and orphaned closes are equally many |
| ShutdownTheorems.SessionNeverSignals | runtime/grpc.go:166 | in session mode nothing is ever sent on done, whatever the host does |
| ShutdownTheorems.SetupLeavesNoTrace | runtime/grpc.go:186-215 | a finished setup's guid is out of the table and never moved the counter |
| ShutdownTheorems.LiveConserved | runtime/grpc.go:109-163 | over any stretch of a run, live nodes change by creates counted less closes decremented |
| SignalRaces.SendsAreQuiet | runtime/grpc.go:165-171 | in every run of a careful host that never has a create outstanding while a close is, each close that sends on done does so with no node live |
| SignalRaces.SendRacesIff | runtime/grpc.go:165-171 | from a reached state with a close about to send, the calls already there can bring it to send with a node live iff one is live or a create has not returned |
| ShutdownTheorems.QuietWindow | runtime/grpc.go:165-171 | no node becomes live in a window in which no create is counted, even for careless hosts |
| LifecycleRuns.FailedCloseSignalsEarly | runtime/grpc.go:103-107 | a run where closing a failed create signals shutdown while a node is live |
| LifecycleRuns.SignalRacesCreate | runtime/grpc.go:165-171 | a run of a careful host where the signal arrives with a node live |
| ShutdownTheorems.StrandedForGood | runtime/grpc.go:155-163 | a node whose handler is gone and held by nobody stays counted in every continuation that does not register it again |
| ShutdownTheorems.SetupStrandsNode | runtime/grpc.go:206 | a setup that ends on a running node's guid leaves it counted in every such continuation |
| LifecycleRuns.SetupCollisionMissesShutdown | runtime/grpc.go:206 | a run where a setup reusing a node's guid removes its handler and the signal never comes |
| LifecycleRuns.SweptNodeClosedAgain | runtime/cli_session.go:381-390 | a run of a careful host in which a swept node is closed again, its OnClose runs twice and nc is -1 |
| LifecycleRuns.OneCapabilitySet | runtime/grpc.go:60-75 | all messages that find a handler decide under one capability set, fixed before initReady closed; which messages do is SoloCalls.MessageFindsIff |
| SoloCalls.CreateSolo | runtime/grpc.go:80-112 | a create alone registers its guid and counts it iff the node's own OnCreate succeeded |
| SoloCalls.CloseSolo | runtime/grpc.go:155-174 | a close alone decrements, removes, and goes on to signal iff it reads zero outside session mode |
| SoloCalls.SetupSolo | runtime/grpc.go:186-215 | a setup alone leaves the counter and removes its guid |
| SoloCalls.MessageSolo | runtime/grpc.go:124-132 | a message alone is handled under the standing capabilities iff its handler is registered, else refused, and changes nothing |
| SoloCalls.MessageFindsIff | runtime/grpc.go:124-128 | in every state the lookup of a message succeeds iff the guid is in the table |
| SoloCalls.RefusedSolo | runtime/grpc.go:85-95 | a create or setup without a working factory and a close without a handler change nothing |
| SoloCalls.SweepSolo | runtime/cli_session.go:381-390 | a sweep alone closes each registered handler once, lowers nc by their number and leaves the table |
| Server.GRPCServer.Init | runtime/grpc.go:37-78 | Init ends the gate and takes the robot's mask through a float64, exactly for masks below 2^53 |
| Server.GRPCServer.OnCreate | runtime/grpc.go:80-112 | the method does the state machine's steps; blocked iff Init is not done, error leaves a registered handler |
| Server.GRPCServer.OnClose | runtime/grpc.go:155-174 | the method does the state machine's steps, runs the handler's OnClose once, and blocks only on a full done channel |
| Server.GRPCServer.OnSetup | runtime/grpc.go:186-215 | nc is unchanged and the table restored for a fresh guid |
| Server.GRPCServer.ListNodeHandlerGuids | runtime/handler.go:61-69 | every registered guid once, in some order |
| Server.GRPCServer.CloseAllSessionNodes | runtime/cli_session.go:381-390 | with no RPC in flight the method does the sweep steps: every handler closed exactly once, nc lowered by their number, the table left alone |
| Session.SessionClient.RunSessionClient | runtime/cli_session.go:126-207 | one command creates its node and appends its guid iff the create succeeded and metadata is readable |
| Session.SessionClient.Close | runtime/cli_session.go:245-275 | closes the listed guids in order, going on after errors |
| Session.ClientAndDaemonAgree | runtime/cli_session.go:162-275 | metadata list = guids created, in order; closing drains exactly those, nc = 0, failed creates remain, closing twice is closing once |
| Session.Unrecorded | runtime/cli_session.go:162-207 | without readable metadata nodes are created but not recorded, and closing the session closes nothing |
| Session.FiresAfterFullTimeout | runtime/cli_session.go:41-48 | the timer can fire iff it has not and the time since the last RPC adds up to the timeout |
| Session.SweepAfterFullTimeout | runtime/cli_session.go:103-106 | each sweep follows a firing after a full idle timeout; it starts idle iff no RPC came in between or a whole timeout passed again after the last one |
| Session.SweepRacesRpc | runtime/cli_session.go:103-106 | for every timeout there is a run whose sweep starts right after an RPC |
| SweepTheorems.SweepAtMostOnce | runtime/cli_session.go:381-390 | in every interleaving the sweep runs OnClose and decrements at most once per guid |
| SweepTheorems.SweepFindsIff | runtime/cli_session.go:384-386 | at its turn the sweep closes a listed guid iff no close has removed it and it is not a finished setup's |
| SweepTheorems.CounterConserved | runtime/cli_session.go:387 | over any stretch of any run nc moves by creates counted less closes decremented less the sweep's decrements, in 32 bits |
| SweepTheorems.ClosedTwiceIff | runtime/cli_session.go:381-390 | a handler's OnClose runs twice iff a close finds it that had not removed it by the sweep's turn, so overlaps or follows it |
| ToolProtocol.ToolResponse | runtime/tool_response.go:37-86 | replies only to a tool request, to a non-empty agent, and then clears the context |
| ToolProtocol.BuildResponse | runtime/tool_response.go:45-74 | the reply's fields |
| ToolProtocol.ToolInterceptor.CollectOutputVariables | runtime/tool_interceptor.go:80-117 | the named outputs present in the context, or a bare status |
| ToolProtocol.ToolInterceptor.OnMessage | runtime/tool_interceptor.go:46-77 | the wrapper around an arbitrary handler run |
| ToolProtocol.ToolInterceptor.Deliver | runtime/grpc.go:118-148 | a message that does not decompress is refused, an error may be forgiven, a message goes out iff the context holds bytes, packed if that is possible |
| ToolReplies.ReplyCount | runtime/tool_interceptor.go:61-77 | for every handler and message the number of replies is computed from its operations and two facts about the message: one for each try that finds marker and agent |
| ToolReplies.AtMostOneReply | runtime/tool_interceptor.go:61-77 | a handler that never puts the marker back after a reply of its own replies at most once whatever else it writes, and exactly once iff its first try finds the context armed |
| ToolReplies.AtMostOneReplyIff | runtime/tool_interceptor.go:61-77 | at most one reply iff the handler's operations never arm the context again between a reply and the next try; other messages pass through |
| ToolReplies.ExactlyOneReplyIff | runtime/tool_interceptor.go:61-77 | a handler that sets no routing key and restores no request after replying replies exactly once, or never iff it discards the request before replying and puts none back |
| ToolTheorems.FlowStopsIff | runtime/tool_response.go:82-83 | for every handler no out-message leaves iff the handler does not leave a document that is no request |
| ToolTheorems.FlowStopsUnlessWrittenIff | runtime/tool_response.go:82-83 | for handlers that keep the marker, raw edits included, no out-message leaves iff nothing is written after a reply that no whole document follows |
| ToolTheorems.WireCarries | runtime/grpc.go:138-148 | a document goes out as it stands, or packed where packing succeeds, and nothing else goes out |
| ToolTheorems.MessageCarries | runtime/grpc.go:132-148 | a message that is no tool request leaves with every key as the input had it and the handler's writes left it |
| ToolTheorems.OutputsMeaning | runtime/tool_interceptor.go:90-116 | exactly the named outputs with a value, each with its value, or a bare status |
| MessageContext.GetAfterSet | message/context.go:51-73 | a write changes the one key and keeps the others |
| ToolTheorems.ReplyField | runtime/tool_response.go:45-74 | every key of a reply and nothing else |
| ToolTheorems.EveryReplyRepeats | runtime/tool_response.go:42-80 | every reply repeats the request's id, session, query and caller if these keys are kept, and goes to the asking agent if that key is kept |
| ToolTheorems.ReplyCorrelates | runtime/tool_response.go:42-80 | with marker and agent kept too, raw edits included, such a reply leaves, and it is the only one unless a whole request is put in place after a reply |
| ToolTheorems.DefaultReplyStatus | runtime/tool_interceptor.go:66-76 | for every handler that tries no reply and returns an armed context: status error iff it failed, data = outputs, and the error is not returned |
| ToolTheorems.ToolkitSilent | runtime/tool_interceptor.go:29-33 | a node without a Tool field gets no default reply and its message flows on |
| ToolReplies.RearmingRepliesAgain | runtime/tool_interceptor.go:127-131 | every handler that replies, puts marker and agent back and leaves them to its return makes a second reply |
| Flags.ParseFlags | runtime/cli.go:304-350 | fails or gives each key its value or the JSON array of its values in order |
| Flags.SucceedsIff | runtime/cli.go:308-327 | parsing succeeds iff every non-flag argument directly follows a flag without an equals sign |
| Flags.GroupedMeaning | runtime/cli.go:332-347 | exactly the given keys; one value as it is, several as the JSON array in order |
| Flags.PrintParseIff | runtime/cli.go:304-350 | printed joined or apart, pairs parse back to the same pairs iff no key has an equals sign and no value written apart is a flag |
| Flags.ApartFlagLost | runtime/cli.go:320-327 | a value that looks like a flag, written apart, makes the key boolean |
| CliRouting.BuildFlagMap | runtime/cli.go:399-449 | the field loop is the last-wins fold over the fields, for which FlagMapMeaning is proved |
| CliRouting.FlagMapMeaning | runtime/cli.go:399-449 | a flag is in the map iff some field takes it, with the entry of the last such field |
| CliRouting.FlagByTags | runtime/cli.go:407-443 | which flag a field takes, by its kind and tags |
| CliRouting.UnknownFlagKey | runtime/cli.go:362-368 | a flag no field takes becomes the message key made of its camel-cased underscored name |
| CliRouting.SlotByTags | runtime/cli.go:361-443 | where the value of a field's own flag goes and in which form, by kind and tags |
| CliRouting.BuildCLIContext | runtime/cli.go:355-386 | for some iteration order, message data and patches are the routing in that order |
| CliRouting.LastWins | runtime/cli.go:361-383 | each slot holds what the last flag routed to it carries |
| CliRouting.OrderIrrelevantIff | runtime/cli.go:361-383 | all iteration orders agree iff flags for one slot carry the same thing |
| CliRouting.KnownFlagsConsistent | runtime/cli.go:399-449 | declared flags never collide when flags and lowered names are distinct |
| CliPipeline.StripGlobals | runtime/cli.go:91-138 | the eight global flags are gone, nothing else |
| CliPipeline.GlobalFlags | runtime/cli.go:91-138 | exactly these eight flags are global |
| CliPipeline.InjectVariableConfig | runtime/cli.go:473-503 | only named Message-scope variables not yet configured are configured |
| CliPipeline.InjectCredentialConfig | runtime/cli.go:453-469 | every credential field is configured with the vault item |
| CliPipeline.CredentialGivenIff | runtime/cli.go:210-213 | before patching, a credential field is configured, with the given item, iff both ids were given |
| CliPipeline.ApplyPatches | runtime/cli.go:218-221 | patches override, in any order |
| CliPipeline.Prepare | runtime/cli.go:202-232 | configuration and message of one run |
| CliPipeline.ReadsWhatArrived | runtime/cli.go:202-232 | whatever the flags and order, a variable reads what arrived at its one slot, or zero |
| CliPipeline.DeliveredIff | runtime/cli.go:355-386 | a flag is what its variable reads iff the scope is Message or Custom, otherwise the variable reads zero |
| CliPipeline.ReachesByTags | runtime/cli.go:407-430 | the served variables are those without a name or with scope absent, Custom or Message |
| CliPipeline.OptionConfigured | runtime/cli.go:370-372 | an enumeration option is configured with the value given for its flag |
| CliPipeline.NodeIdentity | runtime/cli.go:202-205 | the configuration carries the fixed guid and the command's name |
| CliPipeline.FallbackCollides | runtime/cli.go:362-368 | an unknown flag falling back to a variable's key makes the result depend on map order |
| CliPipeline.RepeatedFlagsRead | runtime/variable.go:203-235 | end to end: repeated flags make a string slice of exactly the values in order; a single flag reads its value |
| InVariables.GetSlice | runtime/variable.go:203-235 | JSON array first, then trimmed comma-separated elements, else a JSON round trip; one bad element fails |
| InVariables.ScopeReads | runtime/variable.go:264-374 | where each scope reads, the fallback of AI variables to tool parameters included |
| InVariables.EachIff | runtime/variable.go:214-229 | a list fails iff some trimmed piece does not decode, else has every piece's value in order |
| InVariables.SliceFallsBack | runtime/variable.go:203-240 | which of the three readings a value gets |
| InVariables.JoinReadsIff | runtime/variable.go:214-229 | a comma-joined list reads back iff its elements are trimmed and comma-free |
| InVariables.JoinReadsBack | runtime/variable.go:203-235 | in particular when the first element opens no bracket |
| CliCommands.GatherCommands | runtime/cli.go:541-646 | the listing of every tool type, in order |
| CliCommands.BuildCommandMap | runtime/cli.go:270-299 | the dispatch map |
| CliCommands.ListCommandDetail | runtime/cli.go:688-708 | the first listed command of that name |
| CliCommands.ListedIff | runtime/cli.go:571-640 | a parameter is listed iff a field that is not an output takes that flag, empty flags of variables excepted |
| CliCommands.ParamByTags | runtime/cli.go:576-635 | name, type, requirement, description, default and choices of a parameter, by its tags |
| CliCommands.OutputsIff | runtime/cli.go:612-619 | an output is listed iff it is a named output variable, with its type |
| CliCommands.CommandByTags | runtime/cli.go:279-294 | name, description and node id of a command, listed and dispatched |
| CliCommands.ListedAreRouted | runtime/cli.go:399-449 | every listed parameter is accepted |
| CliCommands.UnlistedIff | runtime/cli.go:571-640 | an accepted flag is unlisted iff only outputs, or variables with an empty flag, take it |
| CliCommands.NamesAgree | runtime/cli.go:270-299 | listed names are the dispatchable names |
| CliCommands.DetailAgreesIff | runtime/cli.go:688-699 | details shown are those of the type that runs, for every command, iff tool names are distinct |
| SpecTags.ParseSpecBySplitting | runtime/spec.go:534-550 | the splitting loop gives its declarative reading |
| SpecTags.ParseSpecByScanning | testing/quick.go:276-319 | the index scanner gives its declarative reading |
| SpecTags.ParsersAgreeIff | testing/quick.go:276-319 | same non-empty keys and cut values iff no entry starts with a space |
| SpecTags.ParsersEqual | runtime/spec.go:534-550 | equal maps when no entry has a second equals sign |
| SpecTags.TagReadsBack | runtime/spec.go:534-550 | a tag printed from entries is read back by both parsers, the last of a repeated key winning |
| SpecSections.ResolveName | runtime/spec.go:352-368 | scope and name of a variable's form data |
| SpecSections.Property.MarkHidden | runtime/spec.go:602-608 | merges the hidden widget into what is there |
| SpecSections.Property.AddInput | runtime/spec.go:370-394 | an input field in schema, order, form data and UI |
| SpecSections.Property.AddOutput | runtime/spec.go:396-414 | an output field |
| SpecSections.Property.AddOption | runtime/spec.go:416-452 | a variable, credential or enumeration among the options |
| SpecSections.Property.AddPlainOption | runtime/spec.go:454-472 | a plain option |
| SpecSections.GenerateSections | runtime/spec.go:212-473 | the field loop builds the three sections |
| SpecSections.ViewsAgree | runtime/spec.go:212-473 | in each section the order lists its fields in declaration order, and schema and form data have exactly those names |
| SpecSections.SectionsDisjoint | runtime/spec.go:370-473 | with distinct lowered names, no duplicates in an order and no field in two sections |
| SpecSections.SectionIff | runtime/spec.go:370-472 | which section a field is in, by its kind and tags, or none |
| SpecSections.SchemaByTags | runtime/spec.go:218-315 | title and shape of a schema entry, by kind and tags |
| SpecSections.FormByTags | runtime/spec.go:370-472 | form data and widget of formatted, array, output, credential, choice and plain fields, by kind and tags |
| SpecSections.NameByTag | runtime/spec.go:352-368 | the name in the form data, base64 decoded where marked and possible |
| SpecSections.LowFirst | runtime/spec.go:573-579 | only an ASCII capital first letter changes, to its small letter |
| SpecSections.FieldEntry | runtime/spec.go:370-473 | with distinct lowered names a field's schema, form data and UI entry are its own, whatever the other fields are |
| SpecSections.ListDataIff | runtime/spec.go:232-472 | form data starts as a list iff the schema says list, apart from outputs, formatted fields and choice variables tagged as inputs |
| SpecSections.VariableData | runtime/spec.go:352-452 | a plain variable has the same form data and widget in every section: Custom and empty, its own name in the message, or its tag's scope and name |
| SpecSections.HiddenIff | runtime/spec.go:602-608 | a placed field ends hidden iff flagged and not a plain option, and keeps its ui:field either way |
| ValueBridge.ConvertValue | runtime/struct.go:15-50 | the recursive loops compute the declarative conversion |
| ValueBridge.ReflectValue | runtime/struct.go:141-241 | the reflective path computes its specification |
| ValueBridge.FastPathAgrees | runtime/struct.go:53-139 | type switch and reflection agree on every bool, number and string |
| ValueBridge.ReflectNormal | runtime/struct.go:141-241 | sent by reflection and read back, a value is its normal form |
| ValueBridge.TripIsNormal | runtime/grpc.go:380-422 | a variable set and read back is the normal form, nil and errors at the top apart |
| ValueBridge.NumberTripIff | runtime/struct.go:63-122 | an integer is read back as itself iff its magnitude fits 53 bits, else as the nearest such number of its sign; a float always |
| ValueBridge.PointerTrip | runtime/struct.go:167-171 | a pointer is read back as its target |
| ValueBridge.LeafTrip | runtime/struct.go:129-240 | booleans, nested errors, values without counterpart and interface elements |
| ValueBridge.StructTrip | runtime/struct.go:188-211 | a struct is read back as exactly its capitalised fields, each with its value, or nil |
| ValueBridge.KeysTrip | runtime/struct.go:212-232 | a map is read back with exactly its string keys, each with its value, or nil |
| ValueBridge.ConvertInjective | runtime/struct.go:15-50 | different protobuf values are received as different values |
| ValueBridge.PlainSurvives | runtime/struct.go:15-241 | non-empty concrete trees of bool, float64 and string survive unchanged |
| ValueBridge.ResendPreservesIff | runtime/struct.go:233-239 | writing back what was read preserves it iff it is nil, a scalar, or a non-empty container of strings |
| Float64.RoundIsNearest | runtime/grpc.go:64-67 | rounding is to a nearest 53-bit number, off by at most half a unit in the last place |
| Float64.TiesToEven | runtime/grpc.go:64-67 | halfway cases go to the even neighbour |
| Float64.ExactIff | runtime/grpc.go:64-67 | an integer survives iff it fits a 53-bit significand |
| Float64.NegotiationExactIff | runtime/capabilities.go:32-35 | a mask is intersected exactly with every package iff it fits a 53-bit significand, as masks using bits 0 to 52 do |
| Float64.AndBits | runtime/capabilities.go:32-35 | the intersection has exactly the bits both masks have |
| Float64.HighBitLosesLmo | runtime/capabilities.go:31-40 | with bit 57 set a shared capability is lost |
| VaultCrypto.CombineKeys | runtime/cli_vault.go:287-296 | the XOR of equally long shares, an error otherwise |
| VaultCrypto.XorRecovers | runtime/cli_vault.go:291-294 | the key and either share give the other share |
| VaultCrypto.CryptBlocks | runtime/cli_vault.go:512-514 | the block loop is CBC decryption |
| VaultCrypto.CbcInverts | runtime/cli_vault.go:512-514 | CBC decryption inverts CBC encryption, section 6.2 of NIST SP 800-38A |
| VaultCrypto.UnpadPad | runtime/cli_vault.go:520-529 | unpadding undoes the padding of section 6.3 of RFC 5652 |
| VaultCrypto.UnpadDrops | runtime/cli_vault.go:520-529 | as many bytes go as the last one says, none if that is none or too many |
| VaultCrypto.UnpadFaithfulIff | runtime/cli_vault.go:520-529 | padding the unpadded data gives it back iff it was properly padded |
| VaultCrypto.DecryptAesCbc | runtime/cli_vault.go:497-517 | every error case, the panics of the cipher package, and the plaintext |
| VaultCrypto.DecryptsIff | runtime/cli_vault.go:497-517 | a plaintext comes out iff key, vector and data have the right sizes, and when the cipher package panics |
| VaultCrypto.DecryptErrors | runtime/cli_vault.go:498-510 | the first thing wrong decides the error |
| VaultCrypto.VaultRoundTrip | runtime/cli_vault.go:287-529 | padded and encrypted under the combined key, every plaintext is recovered |
| VaultsFile.VaultSecrets.ParseVaultsFile | runtime/cli_vault.go:150-180 | the state-machine loop adds the entries of the section between header and end, later ones winning |
| VaultsFile.EntryReadsBackIff | runtime/cli_vault.go:168-178 | a printed entry reads back iff it has a secret and an id without leading space and separator |
| VaultsFile.EndsIff | runtime/cli_vault.go:153-167 | which lines end the section |
| VaultsFile.EntryByText | runtime/cli_vault.go:153-178 | what a line says, whatever white space surrounds it |
| VaultsFile.PrintReadsBack | runtime/cli_vault.go:150-180 | any writable entries printed with LF or CRLF read back, keeping what the map held |
| VaultsFile.SectionReadsBack | runtime/cli_vault.go:151-167 | whatever stands before the first header and after the line that ends the section is ignored |

## Left out

- gRPC transport, broker dialling, sockets, process forking, environment and configuration files: only the state they change is modelled.
- Signals of the operating system and `checkConnState`'s sends after a lost connection are one action that may send on `done` at any time; its once-a-second repetition is not modelled.
- `initReady` before the first `Init` is a nil channel on which a call blocks for ever; the model lets such a call go on after `Init`, which only adds runs.
- The number of registered handlers is below 2^31 where `ShutdownNotEarly` and `CounterIsLive` compare the counter with a set size; the wrap-around itself is modelled.
- A node's callbacks are reduced to their outcomes, and a handler's context operations to plain top-level keys; gjson and sjson path syntax is not modelled.
- The large-message blob store (`runtime/lmo_rt.go`): resolving and packing leave a value unchanged.
- A tool reply when no runtime helper is set: `EmitInput` then only returns an error, which `ToolResponse` ignores.
- ToolProtocol.ToolInterceptor.Deliver: starts where the handler was found; the lookup and its failure are steps of the state machine, and the node's delays are not modelled.
- A context write that fails (sjson rejects an empty path or a value it cannot encode) stores whatever sjson returned. The model's writes succeed; one that leaves no data is the raw overwrite with nil, which every theorem about handlers covers, and which the wrapper takes for a reply already sent.
- Message contexts whose bytes are not a JSON object.
- The other branches of `InVariable.Get`'s conversion (`getInt`, `getFloat`, `getBool`, `getString` and the pointer forms): one-step conversions with no property across them.
- `json.Unmarshal` into a node struct: a configuration key belongs to the field of that lowered name; its case-insensitive matching of other names is not modelled.
- Vault name resolution and the vault HTTP API: the ids of the item are given.
- CliPipeline.DeliveredIff: assumes lowered field names other than `guid` and `name`, which the run's own configuration already holds.
- Invalid UTF-8 in flags, which JSON coding would replace: strings are sequences of characters.
- SpecSections.HiddenIff: node types with two fields of one lowered name are excluded, because they share every view.
- SpecSections.GenerateSections: a schema entry is its title and shape; its types, items, enum values and scope markers are not modelled.
- SpecSections.FieldEntry: the same holds for the schema entry it names.
- Lowering a first letter outside ASCII.
- NaN, infinities and float32 rounding of program values; a mask so large that it rounds up to 2^64.
- RSA-OAEP, SHA-256, AES block internals, hex and base64 tables: inverse laws only.
- Help printing, `skillmd.go`, `debug/`, `oauth.go`, icons and generated protobuf code.
