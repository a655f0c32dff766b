# GMOS simulation helpers in Dafny

This project models three pieces of the GMOS analog design flow and proves properties of them.

- **The BeSpice Wave remote-control client** (`BespiceWaveInterface`). It starts a listening
  socket, launches the viewer with that port, and accepts viewers into a registry and a queue
  of viewers still to be set up. Each command is sent as one ASCII line to the first registered
  viewer, followed by one `select()` pass whose handlers accept new viewers, read replies and
  deregister lost ones. Every new viewer then gets the set-up command. Modules:
  - `WaveCommands`: the command lines;
  - `WavePass`: one readiness pass, as pure functions;
  - `WaveSocket`: the client as a class whose fields the methods update.
- **The SPICE netlist generator window** (`SpiceGenerator`) in its two variants:
  - the *lenient* one (`eda/eda-scripts/gui.py`) reads missing parameters with `dict.get`;
  - the *strict* one (`eda-scripts/gui.py`) indexes with `[]` and raises `KeyError`.

  Modules:
  - `SpiceNetlist`: the netlist text as functions;
  - `SpiceGui`: the window's state as a class whose methods are the slots.
- **The ngspice raw-file reader and CSV converter** (`rawread` and `convert_raw_to_csv`).
  Modules:
  - `RawRead`: the reader, as a method with loops proved equal to a recursive specification;
  - `RawConvert`: the conversion of a directory.

`Text` holds the Python built-ins these rely on:
- `str.strip` and `bytes.strip`;
- `str.split`;
- `int()` on text and on bytes;
- `str.replace`;
- ASCII encoding and decoding;
- `bytes.lower`;
- `"{0}".format(n)`.

The environment is given as inputs. This covers:
- the port the OS assigns;
- whether a path exists;
- whether each `send()` goes through;
- what each `select()` reports;
- the directory listing, or that `os.listdir` raised, and each file's contents or that it cannot be opened;
- the texts typed into the forms;
- the rows selected in the list widget.

Exceptions are values (`Outcome`, `Option<Exception>`, `RawError`), so the error paths of the source are part of every contract.

Some behaviours of the source are modelled as written, and the model proves them:
- **`waitForConnection` raises `NameError` on viewer text.** Text from a viewer makes it strip the unbound name `answer` (`WavePass.TextWhileWaitingRaises`, `WavePass.WaitingPassRaises`).
- **The answer is `False` without a viewer.** With no viewer registered, `writeCommandAndWaitForAnswer` returns `False` rather than a string.
- **Commands must be ASCII.** Commands are encoded with strict ASCII, so a non-ASCII file name raises `UnicodeEncodeError`.
- **Quotes are not escaped.** A double quote in a file name ends the quoted argument early (`WaveCommands.QuoteInFileNameSplitsIt`).
- **Every `.raw` in a name becomes `.csv`.** `filename.replace(".raw", ".csv")` rewrites every occurrence, so two files can collide on one CSV name (`RawConvert.CsvNamesCollide`).
- **Unordered multi-selection would remove the wrong rows (latent).** Both list widgets keep Qt's default single-selection mode, since neither file calls `setSelectionMode` (eda/eda-scripts/gui.py line 81, eda-scripts/gui.py line 117), so as shipped at most one row is selected and `remove_selected_stimuli` removes just that row (`SpiceGui.PopOne`). The loop pops rows in the reverse of the selection order, so in a multi-selection mode a selection not in ascending order would either remove rows other than the ones selected (`SpiceGui.PopsUnordered`) or raise `IndexError` part way (`SpiceGui.PopsUnorderedRaises`).
- **The reader swallows a line after each payload.** The `readline()` after a binary payload discards the line that follows it: whatever that line holds, rawread returns the same (`RawRead.PayloadDiscardsNextLine`).

## Model

| member | source | states |
|---|---|---|
| Text.Trim | eda-bespice/analog_flavor_eval/examples/bspwave/socket_connection/BespiceWaveSocket.py:193 | trimming never lengthens; with `TrimSpec` it drops exactly the leading and trailing white space |
| Text.TrimEnds | eda-bespice/analog_flavor_eval/examples/bspwave/socket_connection/BespiceWaveSocket.py:193 | the reference for strip: an infix of the input, every element dropped on either side is white space, and the result neither starts nor ends with white space |
| Text.TrimLeftThenRight | eda/eda-scripts/gui.py:153-154 | stripping both ends is stripping the left end and then the right end |
| Text.TrimSpec | eda/eda-scripts/gui.py:153-154 | strip agrees with its reference definition on every input |
| Text.TrimUnchanged | eda/eda-scripts/gui.py:162 | a text without white space at either end is left unchanged |
| Text.StripIsInfix | eda/eda-scripts/rawtocsv.py:27 | the stripped text is a contiguous piece of the original |
| Text.StripIdempotent | eda/eda-scripts/rawtocsv.py:27 | stripping twice is stripping once |
| Text.IndexOf | eda/eda-scripts/rawtocsv.py:24 | the first occurrence of a separator, or the length when there is none |
| Text.ReplaceAllLength | eda/eda-scripts/rawtocsv.py:65 | replacing by a pattern of the same length keeps the length |
| Text.ReplaceAllAround | eda/eda-scripts/rawtocsv.py:65 | every occurrence of a non-self-overlapping pattern is replaced, and the text around it is rewritten independently |
| Text.WordsOfWord | eda/eda-scripts/rawtocsv.py:36 | `split()` yields a leading word whole when it ends the text or a space follows it |
| Text.WordsOfSeparated | eda/eda-scripts/rawtocsv.py:36 | a word, one white-space character and the rest split into that word and the rest's words |
| Text.WordsAfterSpace | eda/eda-scripts/rawtocsv.py:36 | leading white space does not change the words |
| Text.NatToDecimal | eda-bespice/analog_flavor_eval/examples/bspwave/socket_connection/BespiceWaveSocket.py:78 | `"{0}".format(port)` is non-empty decimal digits, without a leading zero unless the value is 0, whose value is the port |
| Text.DecimalRoundTrip | eda-bespice/analog_flavor_eval/examples/bspwave/socket_connection/BespiceWaveSocket.py:78 | `int()` reads back the decimal text of any natural number |
| Text.DigitsAreGroups | eda/eda-scripts/rawtocsv.py:37 | a string of digits is an integer literal for `int()` and has its decimal value |
| Text.AsciiRoundTrip | eda/eda-scripts/rawtocsv.py:36 | decoding the ASCII encoding of a string gives it back |
| Text.AsciiBytes | eda-bespice/analog_flavor_eval/examples/bspwave/socket_connection/BespiceWaveSocket.py:200 | the ASCII encoding has one byte per character, each with the character's code |
| Text.AsciiConcat | eda-bespice/analog_flavor_eval/examples/bspwave/socket_connection/BespiceWaveSocket.py:199-200 | a concatenation encodes exactly when both parts do |
| Text.LowerBytes | eda/eda-scripts/rawtocsv.py:26 | `bytes.lower()` keeps the length and maps each byte on its own |
| WaveCommands.OpenFileCommands | eda-bespice/analog_flavor_eval/examples/bspwave/socket_connection/BespiceWaveSocket.py:259-263 | openFile issues `open_file` first and `use_file_for_link_to_schematic` last, with `create_equivalent_nets` between them exactly when a netlist file is given |
| WaveCommands.WireLineIsOneLine | eda-bespice/analog_flavor_eval/examples/bspwave/socket_connection/BespiceWaveSocket.py:193-199 | a command without a newline travels as exactly one line ending in a newline |
| WaveCommands.WireLineOfTrimmed | eda-bespice/analog_flavor_eval/examples/bspwave/socket_connection/BespiceWaveSocket.py:193 | a command with no white space at its ends is sent unchanged |
| WaveCommands.WireLineOfVerbLine | eda-bespice/analog_flavor_eval/examples/bspwave/socket_connection/BespiceWaveSocket.py:193-199 | a verb line whose arguments end in a visible character is sent unchanged |
| WaveCommands.VerbLineEncodable | eda-bespice/analog_flavor_eval/examples/bspwave/socket_connection/BespiceWaveSocket.py:200 | a verb line can be encoded exactly when its arguments are ASCII |
| WaveCommands.SpecializationEncodable | eda-bespice/analog_flavor_eval/examples/bspwave/socket_connection/BespiceWaveSocket.py:133 | the specialization line can be encoded exactly when the tag is ASCII |
| WaveCommands.NonAsciiFileNameIsNotEncodable | eda-bespice/analog_flavor_eval/examples/bspwave/socket_connection/BespiceWaveSocket.py:260 | an open_file line with a non-ASCII file name cannot be encoded |
| WaveCommands.StatusEncodable | eda-bespice/analog_flavor_eval/examples/bspwave/socket_connection/BespiceWaveSocket.py:254 | `get_status` always travels as itself plus a newline |
| WaveCommands.CurveWithoutColor | eda-bespice/analog_flavor_eval/examples/bspwave/socket_connection/BespiceWaveSocket.py:268 | without a color the curve template ends in `0 `, and the strip before sending removes that space |
| WaveCommands.TokenizeRender | eda-bespice/analog_flavor_eval/examples/bspwave/socket_connection/BespiceWaveSocket.py:260-288 | reading a line of well-formed words joined by spaces gives back the words |
| WaveCommands.OpenFileReadsBack | eda-bespice/analog_flavor_eval/examples/bspwave/socket_connection/BespiceWaveSocket.py:260 | the open_file line reads back as the verb and the file name when the name has no double quote |
| WaveCommands.SpecializationReadsBack | eda-bespice/analog_flavor_eval/examples/bspwave/socket_connection/BespiceWaveSocket.py:133 | the specialization line reads back as the verb and the tag |
| WaveCommands.EquivalentNetsReadsBack | eda-bespice/analog_flavor_eval/examples/bspwave/socket_connection/BespiceWaveSocket.py:262 | the equivalent-nets line reads back as the verb, the waveform file, then the netlist file |
| WaveCommands.LinkToSchematicReadsBack | eda-bespice/analog_flavor_eval/examples/bspwave/socket_connection/BespiceWaveSocket.py:263 | the link line reads back as the verb, the waveform file and the flag 1 |
| WaveCommands.AddPlotReadsBack | eda-bespice/analog_flavor_eval/examples/bspwave/socket_connection/BespiceWaveSocket.py:286-288 | the add_plot line reads back as the plot name, the plot type and two flags 1 |
| WaveCommands.CurveReadsBack | eda-bespice/analog_flavor_eval/examples/bspwave/socket_connection/BespiceWaveSocket.py:267-283 | what is sent for a curve command reads back as verb, `*`, `""`, the curve name, the flag 0 and the color when one is given |
| WaveCommands.QuoteInFileNameSplitsIt | eda-bespice/analog_flavor_eval/examples/bspwave/socket_connection/BespiceWaveSocket.py:260 | a double quote inside a file name ends the quoted argument early, since nothing is escaped |
| WavePass.Socks | eda-bespice/analog_flavor_eval/examples/bspwave/socket_connection/BespiceWaveSocket.py:141-142 | the sockets of the registry entries, one per entry in order |
| WavePass.FirstReadOutcome | eda-bespice/analog_flavor_eval/examples/bspwave/socket_connection/BespiceWaveSocket.py:111-123 | acceptConnection returns False on a read error, raises on a chunk that is not UTF-8, and returns True otherwise |
| WavePass.CreateInputList | eda-bespice/analog_flavor_eval/examples/bspwave/socket_connection/BespiceWaveSocket.py:139-143 | the listening socket first, then every registered socket in registry order |
| WavePass.WithoutMembers | eda-bespice/analog_flavor_eval/examples/bspwave/socket_connection/BespiceWaveSocket.py:184-188 | an entry survives removal exactly when its socket is not the one removed |
| WavePass.WithoutAppend | eda-bespice/analog_flavor_eval/examples/bspwave/socket_connection/BespiceWaveSocket.py:184-188 | removal keeps the relative order of the survivors |
| WavePass.WithoutAbsent | eda-bespice/analog_flavor_eval/examples/bspwave/socket_connection/BespiceWaveSocket.py:180-189 | removing a socket that is not registered leaves the registry unchanged |
| WavePass.WithoutTwice | eda-bespice/analog_flavor_eval/examples/bspwave/socket_connection/BespiceWaveSocket.py:180-189 | two removals are one removal of both |
| WavePass.RemoveIdempotent | eda-bespice/analog_flavor_eval/examples/bspwave/socket_connection/BespiceWaveSocket.py:180-189 | removing the same connection twice is removing it once |
| WavePass.WithoutAt | eda-bespice/analog_flavor_eval/examples/bspwave/socket_connection/BespiceWaveSocket.py:184-188 | with distinct sockets, removing the socket of entry i deletes exactly that entry |
| WavePass.DropValid | eda-bespice/analog_flavor_eval/examples/bspwave/socket_connection/BespiceWaveSocket.py:180-189 | removing a connection keeps registered and queued sockets distinct, handed out and (when registered) open |
| WavePass.AcceptValid | eda-bespice/analog_flavor_eval/examples/bspwave/socket_connection/BespiceWaveSocket.py:101-107 | accepting appends a fresh socket to the registry and the queue and keeps the bookkeeping valid |
| WavePass.StepValid | eda-bespice/analog_flavor_eval/examples/bspwave/socket_connection/BespiceWaveSocket.py:217-239 | one handler keeps the bookkeeping valid and at most appends one accepted peer to the queue |
| WavePass.RunValid | eda-bespice/analog_flavor_eval/examples/bspwave/socket_connection/BespiceWaveSocket.py:158-174 | a whole pass keeps the bookkeeping valid and only appends freshly accepted peers to the queue |
| WavePass.QueueGrowthTrans | eda-bespice/analog_flavor_eval/examples/bspwave/socket_connection/BespiceWaveSocket.py:106-107 | queue growth composes across passes |
| WavePass.ReplyOnlyFromTarget | eda-bespice/analog_flavor_eval/examples/bspwave/socket_connection/BespiceWaveSocket.py:227-237 | the reply a pass ends with is the one it began with or the stripped text of a read of the target socket |
| WavePass.CrossTalkIgnored | eda-bespice/analog_flavor_eval/examples/bspwave/socket_connection/BespiceWaveSocket.py:233-237 | removing text from peers other than the target from the pass changes nothing in its result |
| WavePass.NoTargetTextKeepsReply | eda-bespice/analog_flavor_eval/examples/bspwave/socket_connection/BespiceWaveSocket.py:192-228 | a pass with no text from the target keeps the reply it started with |
| WavePass.TargetTextIsReply | eda-bespice/analog_flavor_eval/examples/bspwave/socket_connection/BespiceWaveSocket.py:228-230 | when the target's text arrives once and the pass completes, the stripped text is the reply |
| WavePass.StepKeepsOut | eda-bespice/analog_flavor_eval/examples/bspwave/socket_connection/BespiceWaveSocket.py:101-107 | a handler never registers again a socket handed out before it |
| WavePass.RunKeepsOut | eda-bespice/analog_flavor_eval/examples/bspwave/socket_connection/BespiceWaveSocket.py:217-239 | a pass never registers again a socket handed out before it |
| WavePass.LostPeerDeregistered | eda-bespice/analog_flavor_eval/examples/bspwave/socket_connection/BespiceWaveSocket.py:221-239 | an empty read or a read error deregisters that socket for the rest of the pass, in either loop |
| WavePass.TextWhileWaitingRaises | eda-bespice/analog_flavor_eval/examples/bspwave/socket_connection/BespiceWaveSocket.py:168-170 | text read while waiting for a connection raises NameError |
| WavePass.ReadyEventsOnce | eda-bespice/analog_flavor_eval/examples/bspwave/socket_connection/BespiceWaveSocket.py:209-217 | a socket watched once and reported ready yields exactly one event carrying its read |
| WavePass.InputListOnce | eda-bespice/analog_flavor_eval/examples/bspwave/socket_connection/BespiceWaveSocket.py:139-143 | a registry of distinct sockets watches each of them exactly once |
| WavePass.RelevantEvents | eda-bespice/analog_flavor_eval/examples/bspwave/socket_connection/BespiceWaveSocket.py:209-217 | filtering other peers' text out of the events is building the events from the filtered results |
| WavePass.RunNoEncodeError | eda-bespice/analog_flavor_eval/examples/bspwave/socket_connection/BespiceWaveSocket.py:217-239 | no handler raises UnicodeEncodeError |
| WavePass.RegisteredReadsOnce | eda-bespice/analog_flavor_eval/examples/bspwave/socket_connection/BespiceWaveSocket.py:209-222 | a registered socket that is ready is read exactly once in the pass |
| WavePass.PassTargetReply | eda-bespice/analog_flavor_eval/examples/bspwave/socket_connection/BespiceWaveSocket.py:209-240 | the text a registered target sends in a pass that completes, stripped, is the reply |
| WavePass.WaitingPassRaises | eda-bespice/analog_flavor_eval/examples/bspwave/socket_connection/BespiceWaveSocket.py:150-174 | while waiting for a connection, text from any registered viewer makes the pass raise: it never completes |
| WaveSocket.Commands | eda-bespice/analog_flavor_eval/examples/bspwave/socket_connection/BespiceWaveSocket.py:243-250 | the commands of the request log, one per request in order |
| WaveSocket.BootstrapEncodable | eda-bespice/analog_flavor_eval/examples/bspwave/socket_connection/BespiceWaveSocket.py:131-136 | the set-up command can be sent exactly when the specialization is ASCII |
| WaveSocket.LaunchArgumentsPort | eda-bespice/analog_flavor_eval/examples/bspwave/socket_connection/BespiceWaveSocket.py:78 | the viewer gets four arguments, the executable first, and reads the listening port back from the fourth |
| WaveSocket.ExchangeValid | eda-bespice/analog_flavor_eval/examples/bspwave/socket_connection/BespiceWaveSocket.py:191-240 | a command exchange keeps the bookkeeping valid and only grows the queue |
| WaveSocket.ExchangeReplyFromTarget | eda-bespice/analog_flavor_eval/examples/bspwave/socket_connection/BespiceWaveSocket.py:191-240 | the reply is "" or the stripped text the target itself sent |
| WaveSocket.ExchangeTargetReply | eda-bespice/analog_flavor_eval/examples/bspwave/socket_connection/BespiceWaveSocket.py:227-230 | when the registered target sends text and nothing raises, that text stripped is the reply |
| WaveSocket.ExchangeIgnoresCrossTalk | eda-bespice/analog_flavor_eval/examples/bspwave/socket_connection/BespiceWaveSocket.py:233-237 | other viewers' text cannot change the exchange's outcome or bookkeeping |
| WaveSocket.ExchangeSendFailure | eda-bespice/analog_flavor_eval/examples/bspwave/socket_connection/BespiceWaveSocket.py:201-207 | a failed send deregisters and closes the target and returns "" |
| WaveSocket.ExchangeLostPeer | eda-bespice/analog_flavor_eval/examples/bspwave/socket_connection/BespiceWaveSocket.py:221-239 | an empty read or a read error from any registered viewer deregisters it |
| WaveSocket.FaithfulReplyFromTarget | eda-bespice/analog_flavor_eval/examples/bspwave/socket_connection/BespiceWaveSocket.py:243-250 | an answer returned with a viewer connected is "" or the stripped text of the first registered viewer |
| WaveSocket.SetupRunSends | eda-bespice/analog_flavor_eval/examples/bspwave/socket_connection/BespiceWaveSocket.py:131-136 | when no exception occurs the set-up loop sends the command once per viewer; a non-ASCII command raises UnicodeEncodeError at the first viewer with nothing changed |
| WaveSocket.SetupRunAt | eda-bespice/analog_flavor_eval/examples/bspwave/socket_connection/BespiceWaveSocket.py:131-136 | the loop from a position is the exchange with that viewer, then the loop over the rest unless it raised |
| WaveSocket.CallSpecFaithful | eda-bespice/analog_flavor_eval/examples/bspwave/socket_connection/BespiceWaveSocket.py:243-250 | the outcome `CallSpec` computes is faithful to the exchange with the first registered viewer |
| WaveSocket.WaitThenSetup | eda-bespice/analog_flavor_eval/examples/bspwave/socket_connection/BespiceWaveSocket.py:157-178 | a waiting pass that raises nothing is followed by the set-up of new viewers, and the result is whether a viewer is then registered |
| WaveSocket.WaitOutcomes | eda-bespice/analog_flavor_eval/examples/bspwave/socket_connection/BespiceWaveSocket.py:147-178 | AttributeError in debug mode without a listening socket; False with nothing else changed after a failed select; a returned value is whether a viewer is registered; text from a registered viewer makes it raise |
| WaveSocket.PeersQuietWithoutResults | eda-bespice/analog_flavor_eval/examples/bspwave/socket_connection/BespiceWaveSocket.py:157-159 | with no read result reported, no peer socket is handled |
| WaveSocket.WaitAcceptsIncoming | eda-bespice/analog_flavor_eval/examples/bspwave/socket_connection/BespiceWaveSocket.py:157-178 | a pass where only a new viewer connects accepts it: an undecodable first read raises, otherwise the viewer is queued and set up in the same call |
| WaveSocket.AccountedAfterGrowth | eda-bespice/analog_flavor_eval/examples/bspwave/socket_connection/BespiceWaveSocket.py:106-107 | viewers accepted into the queue are accounted for as queued |
| WaveSocket.AccountedDequeue | eda-bespice/analog_flavor_eval/examples/bspwave/socket_connection/BespiceWaveSocket.py:127-128 | taking the whole queue moves its viewers in flight, each still accounted once |
| WaveSocket.AccountedBootstrap | eda-bespice/analog_flavor_eval/examples/bspwave/socket_connection/BespiceWaveSocket.py:132-136 | a viewer reached by the set-up loop moves from in flight to bootstrapped |
| WaveSocket.AccountedAbandon | eda-bespice/analog_flavor_eval/examples/bspwave/socket_connection/BespiceWaveSocket.py:125-136 | an exception in the set-up loop leaves the viewers not reached abandoned |
| WaveSocket.BootstrappedOnce | eda-bespice/analog_flavor_eval/examples/bspwave/socket_connection/BespiceWaveSocket.py:125-136 | no viewer is ever set up twice, and every accepted viewer neither queued nor abandoned was set up exactly once |
| WaveSocket.Sends | eda-bespice/analog_flavor_eval/examples/bspwave/socket_connection/BespiceWaveSocket.py:132-136 | one transmission of the line per viewer, in order |
| WaveSocket.SendsStep | eda-bespice/analog_flavor_eval/examples/bspwave/socket_connection/BespiceWaveSocket.py:132-136 | reaching one more viewer extends the sends and the set-up viewers by that viewer |
| WaveSocket.OpenFileMade | eda-bespice/analog_flavor_eval/examples/bspwave/socket_connection/BespiceWaveSocket.py:259-263 | the requests made by openFile are a prefix of its command list, all of it when the last one returned |
| WaveSocket.OpenFileNext | eda-bespice/analog_flavor_eval/examples/bspwave/socket_connection/BespiceWaveSocket.py:259-263 | one more openFile command after an answered one keeps the requests the first commands in order |
| WaveSocket.LoggedEach | eda-bespice/analog_flavor_eval/examples/bspwave/socket_connection/BespiceWaveSocket.py:243-250 | every logged call asked for its request's command, had its outcome, and is faithful |
| WaveSocket.LoggedAppend | eda-bespice/analog_flavor_eval/examples/bspwave/socket_connection/BespiceWaveSocket.py:243-250 | a faithful call appended with its request keeps the log |
| WaveSocket.OpenFileLogged | eda-bespice/analog_flavor_eval/examples/bspwave/socket_connection/BespiceWaveSocket.py:259-263 | the requests and calls made by openFile are the tails of the logs, matched one for one |
| WaveSocket.BespiceWaveInterface.constructor | eda-bespice/analog_flavor_eval/examples/bspwave/socket_connection/BespiceWaveSocket.py:32-36 | empty path and specialization, debug off, port 0; no viewer registered, queued, set up or abandoned, no socket handed out or closed, nothing sent, spawned or logged |
| WaveSocket.BespiceWaveInterface.SetExecutablePath | eda-bespice/analog_flavor_eval/examples/bspwave/socket_connection/BespiceWaveSocket.py:39-40 | sets the executable path and nothing else |
| WaveSocket.BespiceWaveInterface.EnableDebugMode | eda-bespice/analog_flavor_eval/examples/bspwave/socket_connection/BespiceWaveSocket.py:42-43 | sets the debug flag and nothing else |
| WaveSocket.BespiceWaveInterface.SetSpecialization | eda-bespice/analog_flavor_eval/examples/bspwave/socket_connection/BespiceWaveSocket.py:45-46 | sets the specialization and nothing else |
| WaveSocket.BespiceWaveInterface.StartServer | eda-bespice/analog_flavor_eval/examples/bspwave/socket_connection/BespiceWaveSocket.py:53-67 | the port is bound once, to the port the OS assigns, later calls keep it, and the result is always True |
| WaveSocket.BespiceWaveInterface.LaunchExecutable | eda-bespice/analog_flavor_eval/examples/bspwave/socket_connection/BespiceWaveSocket.py:72-83 | starts the server; the result is whether the path exists, and only then is the viewer launched with the executable and the port |
| WaveSocket.BespiceWaveInterface.CheckIsConnected | eda-bespice/analog_flavor_eval/examples/bspwave/socket_connection/BespiceWaveSocket.py:86-93 | True exactly when some viewer is registered |
| WaveSocket.BespiceWaveInterface.AcceptConnection | eda-bespice/analog_flavor_eval/examples/bspwave/socket_connection/BespiceWaveSocket.py:101-123 | AttributeError before the server starts; otherwise the new viewer joins registry and queue and the first read decides the result |
| WaveSocket.BespiceWaveInterface.RemoveConnection | eda-bespice/analog_flavor_eval/examples/bspwave/socket_connection/BespiceWaveSocket.py:180-189 | the loop that removes while iterating closes the socket and drops all of its entries, the others in order |
| WaveSocket.BespiceWaveInterface.HandleEvent | eda-bespice/analog_flavor_eval/examples/bspwave/socket_connection/BespiceWaveSocket.py:217-239 | the state after one handler is the pure step of the pass |
| WaveSocket.BespiceWaveInterface.ServicePass | eda-bespice/analog_flavor_eval/examples/bspwave/socket_connection/BespiceWaveSocket.py:217-239 | the loop over the ready sockets ends in the state, reply and exception of the pure pass |
| WaveSocket.BespiceWaveInterface.WriteCommandToSocket | eda-bespice/analog_flavor_eval/examples/bspwave/socket_connection/BespiceWaveSocket.py:191-240 | raises UnicodeEncodeError exactly for a non-ASCII line; otherwise sends the stripped line plus newline once; the new bookkeeping, reply and send and select counts are those of `Transmit`, the command exchange fed with the next send and select results |
| WaveSocket.BespiceWaveInterface.SetUpViewer | eda-bespice/analog_flavor_eval/examples/bspwave/socket_connection/BespiceWaveSocket.py:132-136 | one viewer of the set-up loop is sent the command and counted as set up unless encoding fails; the bookkeeping and counts after it are `Transmit` to that viewer |
| WaveSocket.BespiceWaveInterface.SetUpViewers | eda-bespice/analog_flavor_eval/examples/bspwave/socket_connection/BespiceWaveSocket.py:131-136 | every viewer taken is sent the command in order and set up, or the first exception ends the loop (UnicodeEncodeError at the first viewer exactly for a non-ASCII line); state, counts and exception are `SetupRun`, the exchanges folded over the viewers |
| WaveSocket.BespiceWaveInterface.TakeQueue | eda-bespice/analog_flavor_eval/examples/bspwave/socket_connection/BespiceWaveSocket.py:127-128 | the queue is taken whole and left empty |
| WaveSocket.BespiceWaveInterface.SetupNewClients | eda-bespice/analog_flavor_eval/examples/bspwave/socket_connection/BespiceWaveSocket.py:125-136 | the state, counts and exception are `SetupSpec`; when no exception occurs, each viewer queued before the call is sent the specialization command or `get_status`, in order; UnicodeEncodeError exactly when the queue is non-empty and the specialization is not ASCII; viewers accepted meanwhile stay queued |
| WaveSocket.BespiceWaveInterface.HandleWaitPass | eda-bespice/analog_flavor_eval/examples/bspwave/socket_connection/BespiceWaveSocket.py:158-174 | the pure waiting pass; text from a registered viewer makes it raise |
| WaveSocket.BespiceWaveInterface.WaitForConnection | eda-bespice/analog_flavor_eval/examples/bspwave/socket_connection/BespiceWaveSocket.py:147-178 | the state, counts and result are `WaitSpec`: the select pass, its handlers, the set-up of new viewers, then whether a viewer is registered (its cases are `WaveSocket.WaitOutcomes`) |
| WaveSocket.BespiceWaveInterface.AskFirstViewer | eda-bespice/analog_flavor_eval/examples/bspwave/socket_connection/BespiceWaveSocket.py:245-248 | the exchange with the first registered viewer, then the set-up of new viewers: state, counts and outcome are `CallSpec`, and the call is faithful to its exchange |
| WaveSocket.BespiceWaveInterface.WriteCommandAndWaitForAnswer | eda-bespice/analog_flavor_eval/examples/bspwave/socket_connection/BespiceWaveSocket.py:243-250 | False without sending anything when no viewer is registered; otherwise the first viewer's answer; the call is logged as a request and as a faithful call, and state, counts and outcome are `CallSpec` |
| WaveSocket.BespiceWaveInterface.GetStatus | eda-bespice/analog_flavor_eval/examples/bspwave/socket_connection/BespiceWaveSocket.py:253-254 | exactly one `writeCommandAndWaitForAnswer("get_status")`: logged, faithful, and leaving the state `CallSpec` gives |
| WaveSocket.BespiceWaveInterface.Ask | eda-bespice/analog_flavor_eval/examples/bspwave/socket_connection/BespiceWaveSocket.py:243-250 | exactly one `writeCommandAndWaitForAnswer(cmd)`: logged as a request and as a call faithful to its exchange, and the new state, counts and outcome are `CallSpec` from the old ones |
| WaveSocket.BespiceWaveInterface.OpenFile | eda-bespice/analog_flavor_eval/examples/bspwave/socket_connection/BespiceWaveSocket.py:259-263 | the requests made are a prefix of open_file, equivalent nets (with a netlist), link; all of them when it returns; the last reply is returned; every request made is logged with a faithful call for its command; the first call starts from the state before openFile; the new state, counts and outcome are `AskInTurn` of the command list from the old ones: `CallSpec` of each command in turn, stopping at the first exception |
| WaveSocket.BespiceWaveInterface.SendOpenFileCommands | eda-bespice/analog_flavor_eval/examples/bspwave/socket_connection/BespiceWaveSocket.py:259-263 | open_file, then the rest unless it raised: the requests and calls made are logged, are the first commands of openFile in order, all of them once the last returned, and the run ends where `AskInTurn` of the commands from the old state ends |
| WaveSocket.BespiceWaveInterface.SendRest | eda-bespice/analog_flavor_eval/examples/bspwave/socket_connection/BespiceWaveSocket.py:261-263 | equivalent nets when a netlist is given, then link unless that raised: openFile, under way, reaches the end `AskInTurn` promised |
| WaveSocket.BespiceWaveInterface.AskLogged | eda-bespice/analog_flavor_eval/examples/bspwave/socket_connection/BespiceWaveSocket.py:259-263 | one command of openFile, asked and logged: the requests and faithful calls made stay the first commands in order; openFile goes on when it returned and commands remain, and otherwise it is done with the end `AskInTurn` promised |
| WaveSocket.BespiceWaveInterface.AskAt | eda-bespice/analog_flavor_eval/examples/bspwave/socket_connection/BespiceWaveSocket.py:259-263 | the next command of openFile is one logged, faithful `writeCommandAndWaitForAnswer` from the current state, and what remains of the run after its outcome is unchanged |
| WaveSocket.AskInTurnNotConnected | eda-bespice/analog_flavor_eval/examples/bspwave/socket_connection/BespiceWaveSocket.py:244-250 | without a registered viewer every command of a run returns False and nothing changes, however many there are |
| WaveSocket.OpenFileStep | eda-bespice/analog_flavor_eval/examples/bspwave/socket_connection/BespiceWaveSocket.py:259-263 | one more answered openFile command extends the logs by its request and its faithful call and keeps them the first commands in order |
| WaveSocket.BespiceWaveInterface.AddCurveToCurrentPlot | eda-bespice/analog_flavor_eval/examples/bspwave/socket_connection/BespiceWaveSocket.py:267-269 | exactly one `writeCommandAndWaitForAnswer` of the curve command: logged, faithful, and leaving the state `CallSpec` gives |
| WaveSocket.BespiceWaveInterface.AddVoltageOnNodeToCurrentPlot | eda-bespice/analog_flavor_eval/examples/bspwave/socket_connection/BespiceWaveSocket.py:274-276 | exactly one `writeCommandAndWaitForAnswer` of the voltage curve command: logged, faithful, and leaving the state `CallSpec` gives |
| WaveSocket.BespiceWaveInterface.AddCurrentThroughDeviceToCurrentPlot | eda-bespice/analog_flavor_eval/examples/bspwave/socket_connection/BespiceWaveSocket.py:281-283 | exactly one `writeCommandAndWaitForAnswer` of the current curve command: logged, faithful, and leaving the state `CallSpec` gives |
| WaveSocket.BespiceWaveInterface.OpenNewPlot | eda-bespice/analog_flavor_eval/examples/bspwave/socket_connection/BespiceWaveSocket.py:286-289 | exactly one `writeCommandAndWaitForAnswer` of the add_plot command with both flags 1: logged, faithful, and leaving the state `CallSpec` gives |
| RawRead.SplitMeta | eda/eda-scripts/rawtocsv.py:24-27 | a split exists exactly when the line has a colon; the key is the lower-cased text before the first colon and the value the stripped rest |
| RawRead.SplitAtFirstColon | eda/eda-scripts/rawtocsv.py:24 | the split is at the first colon, so later colons stay in the value |
| RawRead.StoreKeeps | eda/eda-scripts/rawtocsv.py:28-29 | a plot only ever holds whitelisted keys; storing replaces a whitelisted key's value and changes nothing else |
| RawRead.VarSpecRoundTrip | eda/eda-scripts/rawtocsv.py:36-39 | a variable line as ngspice writes it is read back as its index, name and unit |
| RawRead.SpecLineBody | eda/eda-scripts/rawtocsv.py:36 | the stripped variable line is ASCII and decodes to the three tab-separated fields |
| RawRead.FramedBody | eda/eda-scripts/rawtocsv.py:36 | a field between a tab and a line end, stripped and decoded, is the field |
| RawRead.BodyWords | eda/eda-scripts/rawtocsv.py:36 | the three fields joined by tabs split into the fields |
| RawRead.VarLines | eda/eda-scripts/rawtocsv.py:35-39 | the loop of the variables block: one name and unit per line in order, the assertion failing on a wrong index |
| RawRead.VarLinesLine | eda/eda-scripts/rawtocsv.py:35-39 | line j of the block gives the name and the unit of variable j |
| RawRead.VariablesHead | eda/eda-scripts/rawtocsv.py:31-32 | the block needs both counts stored earlier in the plot and both integers, else KeyError or ValueError |
| RawRead.VariablesBlock | eda/eda-scripts/rawtocsv.py:30-39 | the block reads `no. variables` lines from the next line on |
| RawRead.VariablesBlockLine | eda/eda-scripts/rawtocsv.py:35-39 | line j of the block gives the name and the unit of variable j |
| RawRead.PayloadMatches | eda/eda-scripts/rawtocsv.py:40-45 | the payload is read exactly when the plot has variables, flags and an integer point count; it is complex exactly when the flags contain `complex` |
| RawRead.ScanPaired | eda/eda-scripts/rawtocsv.py:14-49 | every returned plot has the array read from it, in the same position, and holds whitelisted keys only |
| RawRead.EntryPaired | eda/eda-scripts/rawtocsv.py:25-48 | one metadata line keeps arrays and plots paired |
| RawRead.VariablesPaired | eda/eda-scripts/rawtocsv.py:30-39 | the variables block keeps arrays and plots paired |
| RawRead.PayloadPaired | eda/eda-scripts/rawtocsv.py:40-48 | a payload appends one array and its plot together and starts a new plot |
| RawRead.ScanFrame | eda/eda-scripts/rawtocsv.py:20-48 | the loop reads only forward: from line i on, it returns the same for two files that agree from line i on |
| RawRead.EntryFrame | eda/eda-scripts/rawtocsv.py:24-48 | a metadata line, with the variables block or payload it reads, depends only on the lines from it on |
| RawRead.VarLinesFrame | eda/eda-scripts/rawtocsv.py:35-39 | the variables block depends only on the lines from its start on |
| RawRead.PayloadDiscardsNextLine | eda/eda-scripts/rawtocsv.py:40-48 | at a `binary` marker, the line after the payload is discarded: replacing it changes nothing that rawread returns |
| RawRead.ScanSkipsPlainLine | eda/eda-scripts/rawtocsv.py:24-25 | a line without a colon is passed over |
| RawRead.ReadVariableLines | eda/eda-scripts/rawtocsv.py:35-39 | the loop reads the block as its specification does |
| RawRead.ReadVariables | eda/eda-scripts/rawtocsv.py:30-39 | the variables branch reads the counts, then the lines, as its specification does |
| RawRead.ReadEntry | eda/eda-scripts/rawtocsv.py:25-48 | one metadata line is processed as its specification does |
| RawRead.ReadRaw | eda/eda-scripts/rawtocsv.py:14-49 | the reading loop returns what the recursive specification of rawread returns, with arrays and plots paired |
| RawConvert.RawFiles | eda/eda-scripts/rawtocsv.py:58 | exactly the listed names ending in `.raw` |
| RawConvert.RawFilesCount | eda/eda-scripts/rawtocsv.py:58 | each `.raw` name is kept as often as listed, and nothing else |
| RawConvert.RawFilesAppend | eda/eda-scripts/rawtocsv.py:58 | the filter keeps the listing order: a listing split in two is filtered part by part, one after the other |
| RawConvert.CsvNameAround | eda/eda-scripts/rawtocsv.py:65 | every `.raw` in the name becomes `.csv`, the rest rewritten independently, and the length is kept |
| RawConvert.CsvNameAbsent | eda/eda-scripts/rawtocsv.py:65 | a name without `.raw` is unchanged |
| RawConvert.CsvNameOfRaw | eda/eda-scripts/rawtocsv.py:65 | a `.raw` file gets a name ending in `.csv`; the stem plus `.csv` when `.raw` only ends the name |
| RawConvert.CsvNamesCollide | eda/eda-scripts/rawtocsv.py:65 | two different `.raw` files can be given the same CSV name |
| RawConvert.ConvertedFromFirstPlot | eda/eda-scripts/rawtocsv.py:67-77 | a file is converted exactly when rawread returns an array; the CSV holds the first array under the first plot's variable names; otherwise the exception, or IndexError, is reported |
| RawConvert.ReportPerRawFile | eda/eda-scripts/rawtocsv.py:51-77 | stops on a missing directory, on a listing that raises (the OSError propagates) or on no `.raw` file; otherwise one report per `.raw` file in listing order, OSError for a file that cannot be opened |
| RawConvert.ReportNamesFile | eda/eda-scripts/rawtocsv.py:16-77 | the report on a file names it, is OSError when it cannot be opened, and names its CSV when it is converted |
| RawConvert.ConvertRawToCsv | eda/eda-scripts/rawtocsv.py:51-77 | the loop over the files produces the report of the specification |
| SpiceNetlist.Schema | eda/eda-scripts/gui.py:133-143 | PULSE has 7 parameters, PWL 1, VDC 1, VAC 3, IDC 1, any other type none |
| SpiceNetlist.LenientValues | eda/eda-scripts/gui.py:227-239 | one value per schema field, the record's or the `dict.get` default |
| SpiceNetlist.Bodies | eda/eda-scripts/gui.py:221-239 | the lines of known-type stimuli, one per stimulus, in list order |
| SpiceNetlist.NetlistFrame | eda/eda-scripts/gui.py:219-259 | the netlist starts with the imported text, or the default comment when nothing was imported, and ends with `.END` |
| SpiceNetlist.StimulusLinesAppend | eda/eda-scripts/gui.py:221-239 | the stimulus text of a list is the texts of its parts concatenated |
| SpiceNetlist.LinesAppend | eda/eda-scripts/gui.py:219-259 | text that ends with a line end is read as its own lines, then the lines of what follows |
| SpiceNetlist.StimulusLinesRead | eda/eda-scripts/gui.py:221-239 | read as lines, the stimulus text is one line per known-type stimulus in order; other types add nothing |
| SpiceNetlist.OneStimulusRead | eda/eda-scripts/gui.py:226-239 | a known-type stimulus gives exactly one line, another type none |
| SpiceNetlist.NetlistLines | eda/eda-scripts/gui.py:218-260 | the netlist's lines: the header's, one per known-type stimulus, the analysis line if any, then `.END` |
| SpiceNetlist.TranWords | eda/eda-scripts/gui.py:241-251 | the `.TRAN` line exists exactly when stop time and step are given, and holds step, stop, then max and min step when given |
| SpiceNetlist.DcWords | eda/eda-scripts/gui.py:252-257 | the `.DC` line exists exactly when start, stop and step are given, and sweeps the first stimulus |
| SpiceNetlist.BodyWords | eda/eda-scripts/gui.py:227-239 | a stimulus line names the source, its node, then ground 0, whatever its type |
| SpiceNetlist.DcSourceWords | eda/eda-scripts/gui.py:230-239 | a DC voltage or current source reads as `DC` and its value |
| SpiceNetlist.Lookup | eda-scripts/gui.py:196-204 | `p[k]` over the keys in turn: the values when all are present, else KeyError for the first missing key |
| SpiceNetlist.StrictLineAgrees | eda-scripts/gui.py:195-204 | on a record holding its type's parameters the strict line is the lenient one |
| SpiceNetlist.StrictLinesAgree | eda-scripts/gui.py:190-204 | on conforming records all strict stimulus lines are the lenient ones; KeyError exactly when one does not conform |
| SpiceNetlist.StrictAnalysisAgrees | eda-scripts/gui.py:206-222 | with the analysis fields present the strict analysis line is the lenient one |
| SpiceNetlist.StrictAgrees | eda-scripts/gui.py:187-225 | the strict netlist equals the lenient one when every record conforms and the analysis fields exist, and raises KeyError exactly otherwise |
| SpiceNetlist.VacWithoutPhase | eda-scripts/gui.py:202 | a VAC record without a phase: the lenient variant writes phase 0, the strict one raises KeyError('Phase') |
| SpiceGui.Labels | eda/eda-scripts/gui.py:165 | one label `name (type) -> node` per record, in order |
| SpiceGui.KeySet | eda/eda-scripts/gui.py:145-149 | the set of a form's field names |
| SpiceGui.Blank | eda/eda-scripts/gui.py:145-149 | fresh empty line edits, exactly one per field |
| SpiceGui.EnteredConforms | eda/eda-scripts/gui.py:160-162 | a record built from its type's form holds all its type's parameters |
| SpiceGui.LabelsAppend | eda/eda-scripts/gui.py:164-165 | appending a record appends its label |
| SpiceGui.RemoveAt | eda/eda-scripts/gui.py:174 | `pop(r)` removes element r, the others keep their order |
| SpiceGui.WithoutBeyond | eda/eda-scripts/gui.py:173-175 | dropping indices past the end changes nothing |
| SpiceGui.WithoutRemoveAt | eda/eda-scripts/gui.py:173-175 | popping row r and then dropping lower rows drops them all |
| SpiceGui.PopOne | eda/eda-scripts/gui.py:171-175 | with a single selected row, that row is removed and the rest keep their order |
| SpiceGui.RowSet | eda/eda-scripts/gui.py:172 | the selected rows as a set |
| SpiceGui.PopsAscending | eda/eda-scripts/gui.py:171-175 | rows selected in ascending order are removed exactly and nothing raises |
| SpiceGui.WithoutNone | eda/eda-scripts/gui.py:171-175 | an empty selection removes nothing |
| SpiceGui.PopsUnordered | eda/eda-scripts/gui.py:173-175 | rows 1 then 0 of three remove the first and the last record |
| SpiceGui.PopsUnorderedRaises | eda/eda-scripts/gui.py:173-175 | rows 1 then 0 of two pop the first record and then raise IndexError on the second pop |
| SpiceGui.LabelsRemoveAt | eda/eda-scripts/gui.py:174-175 | popping the same row from records and labels keeps them in step |
| SpiceGui.SpiceGenerator.constructor | eda/eda-scripts/gui.py:18-23 | empty list and texts; the forms of PULSE and Transient |
| SpiceGui.SpiceGenerator.UpdateStimuliParams | eda/eda-scripts/gui.py:130-149 | the parameter form shows exactly the selected type's fields, empty |
| SpiceGui.SpiceGenerator.UpdateAnalysisParams | eda/eda-scripts/gui.py:178-191 | the analysis form shows exactly the selected type's fields, empty |
| SpiceGui.SpiceGenerator.EnterSource | eda/eda-scripts/gui.py:153-154 | typing sets the name and node texts only |
| SpiceGui.SpiceGenerator.EnterParam | eda/eda-scripts/gui.py:161-162 | typing sets one shown parameter field only |
| SpiceGui.SpiceGenerator.EnterAnalysisField | eda/eda-scripts/gui.py:243-246 | typing sets one shown analysis field only |
| SpiceGui.SpiceGenerator.ImportNetlist | eda/eda-scripts/gui.py:194-204 | the file's text becomes the imported netlist and is shown |
| SpiceGui.SpiceGenerator.AddStimuli | eda/eda-scripts/gui.py:151-169 | adds exactly when the stripped name and node are non-empty: one record with stripped values and its label, then all fields cleared; otherwise nothing changes |
| SpiceGui.SpiceGenerator.RemoveSelectedStimuli | eda/eda-scripts/gui.py:171-175 | records and labels are what popping the selection in reverse gives, IndexError on a row past the end |
| SpiceGui.SpiceGenerator.GenerateNetlist | eda/eda-scripts/gui.py:218-260 | the lenient variant shows the netlist; the strict one shows it or raises KeyError; on the window's own records both show the same text and the strict never raises |
| SpiceGui.SpiceGenerator.ReadyInWindow | eda-scripts/gui.py:206-222 | the analysis fields the window shows are the ones the strict variant reads |
| SpiceGui.SpiceGenerator.ClearNetlist | eda/eda-scripts/gui.py:266-269 | the shown netlist and the imported text are emptied, so the next netlist starts with the default header |

## Left out

- Qt widgets, layouts, dialogs, message boxes, the window title, window sizes and the copy and save slots: the window is modelled by the texts and selections it holds.
- The class-level lists `m_connectedClients` and `m_newConnectedClients` (BespiceWaveSocket.py lines 28-29) are shared by every instance in Python. The model gives each client its own registry and queue, since the core creates one client.
- Timeouts, `setReadTimeout` and the read timeout: `select()` results are inputs, so how long a pass waits is not modelled.
- Partial sends, the 1024-byte `recv` limit and the contents of UTF-8 decoding: a read is its decoded text, or a marker that decoding failed.
- The debug messages and every `print`. This includes the debug-only branch at BespiceWaveSocket.py line 236 that strips the wrong variable, since it changes no state or result.
- The process launch itself: the spawned argument vector is recorded and nothing runs.
- Tokenize: the viewer's parser is not in the repository; the model's tokenizer is one plausible reading of the protocol, used only to state what each command line carries.
- numpy decoding of the binary payload, dtype errors (such as duplicate variable names) and `np.savetxt`: the payload is recorded by its row type and point count, and a CSV by its name, header and array.
- The 512-byte `readline` limit in rawtocsv.py: lines are taken as the file's lines.
- Python `assert` statements are modelled as raising; running under `-O`, which disables them, is not modelled.
- The binary payload that `np.fromfile` reads (rawtocsv.py line 45) is, in the model, the next line of the file, since the file is given as lines; a payload containing a newline byte is not modelled. The `readline()` after the payload then discards the line that follows, as written.
- Which `OSError` subclass `open()` raises (missing file, directory, no permission): every `open()` failure of a `.raw` file is reported as one `OSError`.
- `os.path.expanduser`, `os.path.join` and the `__main__` driver: paths are plain strings, and the listing order is whatever `os.listdir` returns.
- What happens to the application after an exception escapes a Qt slot (in PyQt6 an uncaught exception in a slot aborts the program): the strict `generate_netlist`'s `KeyError` and `remove_selected_stimuli`'s `IndexError` are results, and the window state is kept as it was when the exception was raised.
- File read errors in `import_netlist` (the lenient variant's error box, the strict variant's uncaught exception): the file's text is an input.
- The order of `selectedIndexes()` is an input, as Qt does not promise one.
- Uncaught OS-call failures in the socket client are not modelled: `bind` and `listen` in startServer (BespiceWaveSocket.py lines 59-61) always succeed, `accept()` (line 102) always returns the incoming viewer, and `Popen` (line 78) on a path that exists but cannot be executed is taken to start the viewer.
- The icview, csvex and start-console scripts are not part of this model.
