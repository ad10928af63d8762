# A verified model of qnetwork

This project models, in Dafny 4.11, the concurrent and stateful parts of the Go library qnetwork and
proves what they keep: the synchronous in-memory pipe and its deadlines, happy-eyeballs dialing, DNS
over a shared UDP socket, the local resolver with its configuration and hosts files, the DNS cache, and
the UDP NAT. `dafny verify dfyconfig.toml` verifies all of it.

## How it is organised

- Concurrent code is a machine: a `State`, an `Action` for each channel operation, critical section or
  callback, `Enabled` and `Step`. A run is any sequence of enabled actions, so a lemma about every run is
  a statement about every interleaving. Records that start as "history" in the comments are ghost
  bookkeeping that no step reads. Where the source has an object whose methods are such steps, a class
  with the same fields implements them.
- Sequential code is a class or method with the source's loops, proved against a specification function;
  lemmas then say what that function means, without naming the loops.
- Libraries that are not part of the source are oracles: the dialer, the network, the address parser, the
  clock, table eviction. A statement holds for every behaviour of the oracle.

| file | what it holds |
|---|---|
| `Deadline.dfy` | the resettable deadline: `Set`, timer, callback, `Wait` |
| `Pipe.dfy`, `PipeSafety.dfy` | the pipe as a machine; its invariants |
| `PipeExits.dfy`, `PipeEntry.dfy`, `PipeReturns.dfy` | why calls return errors; what a call returns on a closed pipe or after its deadline; that calls return |
| `Dialer.dfy`, `DialRace.dfy` | serial dialing; the race of two families |
| `UdpExchange.dfy` | ids, callbacks and connections of DNS over UDP |
| `Text.dfy`, `ResolvConf.dfy` | words, lines and names; reading resolv.conf |
| `ConfMeaning.dfy`, `ConfRoundTrip.dfy` | what a resolv.conf means, field by field; writing and reading back |
| `NameList.dfy`, `Pigeonhole.dfy`, `ServerRotation.dfy` | search expansion; which servers a search asks |
| `TransportTable.dfy` | the transports of the local resolver |
| `Hosts.dfy` | the hosts index against a plain scan |
| `DnsMessage.dfy`, `DnsCache.dfy` | TTLs and EDNS; the cache |
| `NatSession.dfy`, `NatHandover.dfy` | a NAT session in sequence and interleaved |
| `UdpNat.dfy`, `NatRace.dfy` | the table of sessions, with calls one after another; first packets that race |
| `Prelude.dfy`, `Modular.dfy` | options, counting, filtering; remainders |

## Where the code departs from its evident intent

The model does what the code does. These departures are stated as results where they can be.

- The cache adds the TTL to the expiry time as nanoseconds (`resolve/cache.go:119`). The unit is a
  parameter; `DnsCache.UnitMatters` says that with nanoseconds only entries with a TTL of at least 10^9
  are ever served.
- The running minimum of TTLs restarts after a zero (`resolve/resolve.go:17`), and OPT records take part
  in it. `DnsMessage.TTLMeans` gives the exact meaning; `MinimumExactly` says when the restart is harmless,
  with `ZeroIsForgotten` as an input where it is not, and `OptExactly` when an OPT record is.
- Overwriting TTLs also overwrites the OPT record's packed version and flags (`resolve/resolve.go:25-31`,
  section 6.1.3 of RFC 6891). `DnsCache.HitKeepsDoExactly` and `HitKeepsVersionExactly` say when a cache hit
  keeps them all the same; in the code's unit it never does, by `NanosecondHits`, unless the flag was off and
  the version 0. `HitLosesDo` is a message that is served and loses its flag, in either unit.
- "IPv4 only" and "IPv6 only" are looked at after the test for an empty family, and not at all for UDP or
  a network of one version (`dialer/methods.go:23-34`): `DialRace.OnlyStrategyBinds` is the exact condition
  over all networks, `OnlyStrategyMayDialOtherFamily` has two inputs.
- The transport's `done` channel is never created (`resolve/transport/udp.go:48-55`), so closing the
  transport, or raising its UDP size, would panic. In the model a waiting exchange may at any time find
  the transport closed, which covers an initialised channel.
- The 32-bit server offset can wrap inside a round (`resolve/transport/local.go:142`):
  `ServerRotation.EveryServerAskedExactly` is the exact condition, for any number of servers.
- The test that skips an update of the server list compares a length with a set size
  (`resolve/transport/local.go:222`): `TransportTable.SkipsExactly` says for which lists it is right.
- A handover that overlaps with arriving packets can reorder or strand them (`netio/udpnat/conn.go:52-67`):
  `NatHandover.ReordersExactly` and `StrandedExactly` are the exact conditions, `OverlapReorders` and
  `OverlapStrands` are runs.
- A last line without a newline that just fills the reader's buffer is lost (`resolve/hosts/hosts.go:69-83`):
  `Hosts.ReadAndLookup` and `LostLineExactly` say exactly when a lookup misses something by that.
- Two first packets of one source can each enter a session (`netio/udpnat/new.go:42-62`):
  `NatRace.OverlapsExactly` says which calls under way can leave one open outside the table, `OverlapAbandons`
  is a run that does.
- Servers are configured with their port and their transports pulled without it
  (`resolve/transport/local.go:247`, `resolve/transport/local.go:328`): by `ServerRotation.NoServerIsAsked`
  every search of the code as written ends at its first pull. The other results about searches and the
  transport table take the keys as given.
- 16-bit query ids collide when 2^16 or more registrations overlap (`resolve/transport/udp.go:106-115`):
  `UdpExchange.UnambiguousExactly` is the exact condition for runs, `CrowdCollides` gives runs that collide.

## Model

| member | source | states |
|---|---|---|
| Deadline.NoDoubleClose | netio/pipe/pipe.go:32-81 | In every run no cancel channel is closed twice, every channel `Wait` returned is current or closed, and a callback that may run finds the channel it was armed for, open |
| Deadline.WaitingSetIsReleased | netio/pipe/pipe.go:36-38 | A `Set` that waits for a fired timer is released: the channel is closed already, or the callback that closes it has started |
| Deadline.ChannelMeansLatestDeadline | netio/pipe/pipe.go:26-65 | With no `Set` under way the current channel is closed exactly if the latest deadline passed; callbacks of earlier deadlines cannot act any more |
| Deadline.SetRefreshes | netio/pipe/pipe.go:32-65 | After `Set` the channel is closed exactly for a past deadline, and a channel the previous deadline closed has been replaced |
| Deadline.FutureDeadlineCanPass | netio/pipe/pipe.go:50-58 | A deadline set in the future can pass: from any reachable state with it in force a run of its timer and callback closes the current channel |
| Deadline.SetIsARun | netio/pipe/pipe.go:32-65 | The effect of one undisturbed `Set` is a run of the interleaved machine |
| Deadline.Timeout.constructor | netio/pipe/pipe.go:22-24 | A new deadline has an open channel and no timer |
| Deadline.Timeout.Set | netio/pipe/pipe.go:32-65 | The whole new state, and that the channel is closed exactly for a past deadline |
| Deadline.Timeout.QuietTimer | netio/pipe/pipe.go:36-39 | Afterwards the previous timer cannot act: it is stopped, or its callback has closed the channel |
| Deadline.Timeout.Install | netio/pipe/pipe.go:40-64 | The rest of `Set`: a fresh channel if needed, a timer or an immediate close |
| Deadline.Timeout.Wait | netio/pipe/pipe.go:67-72 | Returns the current channel and records that it was handed out |
| PipeSafety.StreamIsExact | netio/pipe/pipe.go:142-209 | In every interleaving the bytes received, in rendezvous order, are the consumed prefixes of the writes, in lock order |
| PipeSafety.StreamListsEachOnce | netio/pipe/pipe.go:142-209 | Those lists name every read that got bytes and every write that lost some, each once |
| PipeSafety.ReadExitIsHonest | netio/pipe/pipe.go:150-172 | A finished read reports exactly the bytes it copied, none on an error |
| PipeSafety.WriteExitIsHonest | netio/pipe/pipe.go:182-209 | A finished write reports exactly the prefix that readers copied, all of its data when it reports no error |
| PipeSafety.CountReachesItsWriter | netio/pipe/pipe.go:91-99 | A read that owes a count can hand it over, to the one write whose bytes it copied and to no other |
| PipeSafety.CountHasOneReader | netio/pipe/pipe.go:196-199 | A write that awaits a count gets it from exactly one read |
| PipeSafety.ExchangeShortensRest | netio/pipe/pipe.go:194-208 | An exchange shortens the rest by what was read, and ends the write exactly when nothing is left |
| PipeSafety.TransferTakesSomething | netio/pipe/pipe.go:161-164 | A transfer fills the buffer or takes all of the rest, so it moves something exactly if the buffer has room and the write has data |
| PipeSafety.ReadSeesCurrentDeadline | netio/pipe/pipe.go:160-171 | A read blocked in select holds the current deadline channel, or one that is closed and lets it return |
| PipeSafety.WriteSeesCurrentDeadline | netio/pipe/pipe.go:195-206 | The same for a write |
| PipeSafety.ReadsMoveAfterClose | netio/pipe/pipe.go:150-172 | Once either end is closed every unfinished read has a step that moves it along |
| PipeSafety.WritesMoveAfterClose | netio/pipe/pipe.go:182-209 | Once either end is closed every unfinished write, or the write that holds its lock, has a step |
| PipeSafety.WriteLoop | netio/pipe/pipe.go:194-208 | The loop alone: the chunks handed out make up the reported prefix; it runs once for empty data and finishes with readers that have room |
| PipeReturns.InnerUsesWork | netio/pipe/pipe.go:150-209 | Every step of a call, alone or with another, uses up some of the work that is left |
| PipeReturns.CallsReturnAfterClose | netio/pipe/pipe.go:114-209 | Once either end is closed all calls return, however the steps are scheduled: a run of their steps is bounded, and has a next step until all have returned |
| PipeReturns.InnerStepsAreBounded | netio/pipe/pipe.go:142-209 | In any run, of an open pipe too, the steps of calls are at most the work there was and 32 for each call, close or deadline step from outside |
| PipeReturns.OppositesMove | netio/pipe/pipe.go:142-209 | On an open pipe, too, an unfinished read and an unfinished write that face each other are never stuck: some step of a call is possible |
| PipeExits.CloseIsSeenExactly | netio/pipe/pipe.go:114-137 | An end sees its own close as local and the other's as remote, exactly when they happened |
| PipeExits.ReadErrorsHaveCauses | netio/pipe/pipe.go:150-172 | A read's error names its cause: own end closed, other end closed, or a deadline passed that was the current one at a step of this very read |
| PipeExits.WriteErrorsHaveCauses | netio/pipe/pipe.go:182-209 | The same for a write, whose error is never end of file |
| PipeEntry.CallsTakeTheirArguments | netio/pipe/pipe.go:114-209 | Both ends can be read, written and closed at any time; a call keeps its end, its buffer or its data through every run |
| PipeEntry.ReadOnClosedPipe | netio/pipe/pipe.go:150-157 | A read that begins after its own end was closed returns "closed pipe", one that begins after only the other end was closed end of file, and both get no bytes, whatever runs before and after |
| PipeEntry.ReadOnPassedDeadline | netio/pipe/pipe.go:150-158 | On an open pipe a read that begins with its deadline passed and not set anew times out and gets no bytes |
| PipeEntry.WriteOnClosedPipe | netio/pipe/pipe.go:182-189 | A write that begins after either end was closed returns "closed pipe", writes nothing and never takes the lock |
| PipeEntry.WriteOnPassedDeadline | netio/pipe/pipe.go:182-190 | The same as for a read, for a write with its deadline passed |
| DialSerial.Compact | dialer/methods.go:108-113 | Moves the addresses that stay to the front of the slice, in order |
| DialSerial.DeleteDropped | dialer/methods.go:108-113 | In-place deletion: survivors in front in order, the tail zeroed |
| DialSerial.DialEach | dialer/methods.go:115-131 | The result is that of the first address that answers; all before it failed, in order; errors list one cause per address |
| DialSerial.Dial | dialer/methods.go:107-132 | The same over the addresses of the right family; a dual network leaves the caller's slice alone |
| DialSerial.ExplainsIsUnique | dialer/methods.go:107-132 | That description determines the result and the addresses tried |
| DialSerial.TriedFitVersion | dialer/methods.go:107-131 | Only addresses that the network's version admits are tried, and all of them when the dial fails; a mapped address goes with IPv6 |
| DialRace.FamiliesPartition | dialer/methods.go:31-32 | Each occurrence of a valid address is in exactly one of the two families |
| DialRace.FamilyOfSum | dialer/methods.go:31-32 | A family keeps the order and the number of its members |
| DialRace.FamilyOfOne | dialer/methods.go:31-32 | Mapped addresses count as IPv4, invalid ones belong to neither family; with `FamilyOfSum` this determines the families of any input |
| DialRace.RacesExactly | dialer/methods.go:22-50 | There is a race if and only if it is TCP on a dual network, both families have a member and the strategy excludes none; its primaries are the preferred family, IPv4 unless IPv6 is preferred, its fallbacks the other |
| DialRace.SerialExactly | dialer/methods.go:22-40 | What is dialed serially: the sorted input for UDP or one version, all of the input if a family is missing, else the family the strategy allows |
| DialRace.RaceStarts | dialer/methods.go:42-50 | For every input with both families and every other strategy the race starts with the preferred family, so the results about races apply |
| DialRace.OnlyStrategyBinds | dialer/methods.go:23-40 | For every protocol and version: a single-family strategy keeps the other family from the dialer exactly if it is TCP on a dual network with its own family present, or the version drops what there is of the other |
| DialRace.OnlyStrategyMayDialOtherFamily | dialer/methods.go:23-36 | Two inputs for which "IPv4 only" dials IPv6: a lone IPv6 address, and UDP |
| DialRace.NothingLeaks | dialer/methods.go:28-29 | In every completed race each connection opened is the returned one, not closed, or was closed exactly once |
| DialRace.RaceFinishes | dialer/methods.go:73-105 | Every run is bounded, can be extended to completion, and turns the main loop at most three times |
| DialRace.StepsUseWork | dialer/methods.go:58-105 | Every step uses up some of the work that is left |
| DialRace.FallbackIsStarted | dialer/methods.go:80-102 | The fallback starts at most once; a failed primary makes its tick due at once; no return after that failure without the fallback's result |
| DialRace.RacerIsSerialDial | dialer/methods.go:58-72 | A racer that is answered by an oracle ends with what the serial dial over its list gives for that oracle |
| DialRace.EveryRaceHasOracles | dialer/methods.go:58-105 | Every race is one in which the dialer answers as some pair of oracles says |
| DialRace.RaceErrorTriedAll | dialer/methods.go:88-99 | An error means every valid address was tried once per occurrence, in order within its family, that every dial failed, and that it lists the primary family's failures |
| DialRace.RaceConnIsFirstSuccess | dialer/methods.go:88-91 | A connection is the dialer's answer to the first address of its family that did not fail, all before it having been tried and failed |
| DialRace.RaceConnIsOpen | dialer/methods.go:66-72 | The connection returned has not been closed |
| UdpExchange.TableHoldsLiveIds | resolve/transport/udp.go:106-115 | In every run, collisions included, the table's keys are ids of unfinished exchanges; with none it is empty |
| UdpExchange.RepliesAreOwn | resolve/transport/udp.go:125-128 | A callback completes at most once, done exactly with its message; the message carried the wire id; the caller gets it under its own id |
| UdpExchange.OneOpenConnection | resolve/transport/udp.go:139-161 | At most one connection is not closed, the current one; no socket is closed twice |
| UdpExchange.OpenGivesTheOpenConnection | resolve/transport/udp.go:139-161 | `open` returns the open connection, dialing exactly when there is none, and fails exactly if that dial fails |
| UdpExchange.FirstErrorIsFinal | resolve/transport/udp.go:239-245 | The first close error stays and is what every later waiter returns |
| UdpExchange.IdsAreUnambiguous | resolve/transport/udp.go:101-115 | With fewer than 2^16 overlapping registrations live ids are distinct and each entry is its own exchange's |
| UdpExchange.RepliesFindTheirExchange | resolve/transport/udp.go:179-192 | Then a reply is handed to an exchange exactly if it is live and holds the reply's id |
| UdpExchange.CompletionDelivers | resolve/transport/udp.go:185-192 | A lookup that found a callback leaves it done with exactly that message, unless it had one before; no other exchange changes |
| UdpExchange.TakenReplyIsReturned | resolve/transport/udp.go:125-128 | An exchange that takes the reply that is there returns it under its own id, whatever happens meanwhile, and its removal can run |
| UdpExchange.ReplyIsDelivered | resolve/transport/udp.go:101-192 | In the window, a reply with the id of a waiting exchange reaches it: a run that begins with that reply ends with the exchange returning its payload under the caller's id |
| UdpExchange.BeginKeepsId | resolve/transport/udp.go:101-102 | An exchange begins with any 16-bit id of its caller and keeps it |
| UdpExchange.IdIsLowBitsOfRank | resolve/transport/udp.go:106-110 | The id on the wire is the low 16 bits of the rank among the registrations |
| UdpExchange.ClosesExactly | resolve/transport/udp.go:117-137 | An open connection is closed by a failed write, a cancelled wait or a failed read of its loop, with that error, and by nothing else |
| UdpExchange.ExchangeGetsOn | resolve/transport/udp.go:101-137 | Every exchange that is not interrupted has a next step and gets on, from opening to the return of its reply |
| UdpExchange.InterruptedExactly | resolve/transport/udp.go:117-137 | An interrupted exchange reports the error that interrupted it; one that waits on a closed connection can see its first error |
| UdpExchange.UnambiguousExactly | resolve/transport/udp.go:101-115 | Throughout a run every live exchange has its own entry if and only if throughout it fewer than 2^16 registrations follow that of any live one |
| UdpExchange.CollisionsExactly | resolve/transport/udp.go:106-110 | A registration takes over an older entry exactly if their ranks differ by a multiple of 2^16 |
| UdpExchange.CrowdCollides | resolve/transport/udp.go:106-110 | More than 2^16 exchanges that overlap do collide: the last has the entry of one that still waits |
| UdpExchange.DnsConnection.constructor | resolve/transport/udp.go:153-157 | A new connection is open, with an empty table |
| UdpExchange.DnsConnection.Register | resolve/transport/udp.go:106-110 | Takes the next id modulo 2^16, enters the callback, keeps the other entries |
| UdpExchange.DnsConnection.Remove | resolve/transport/udp.go:111-115 | Removes the entry |
| UdpExchange.DnsConnection.Close | resolve/transport/udp.go:239-245 | Only the first close has an effect |
| UdpExchange.DnsCallback.constructor | resolve/transport/udp.go:103-105 | A new callback is not done |
| UdpExchange.DnsCallback.Complete | resolve/transport/udp.go:185-192 | The first message stays |
| Text.AssembleFile | resolve/hosts/hosts.go:69-83 | However lines are split into prefix pieces, the loop sees the lines |
| Text.ReadLinesDeliver | resolve/hosts/hosts.go:69-83 | For a buffer of any size the pieces of ReadLine make up the lines of the text, but for an unfinished one held at the end |
| Text.LostExactly | resolve/hosts/hosts.go:69-83 | A last line is held at the end exactly if full pieces make it up; without carriage returns, if its length is a multiple of the buffer's size |
| Text.FileDelivers | resolve/hosts/hosts.go:69-83 | Lines that are finished are all delivered, however they are split |
| Text.FieldsExactly | resolve/transport/local.go:320 | For every line: splitting gives exactly the words the line consists of, with white space between and around them, also a word that ends the line |
| Text.FieldsAround | resolve/hosts/hosts.go:88 | A word between white space or the ends of a line is split off, and the words before and after it are those of the rest |
| Text.FqdnExactly | resolve/hosts/hosts.go:98 | Which names are absolute: a final dot that is not escaped, with the parity of backslashes |
| Text.SameNameExactly | resolve/hosts/hosts.go:37-42 | Two names are indexed alike if and only if they differ only in case and in a final dot that makes one absolute |
| Text.FoldsExactly | resolve/hosts/hosts.go:41 | Lower-casing identifies exactly the names that are equal up to the case of letters |
| Text.FieldsOfUnwords | resolve/transport/local.go:320 | Splitting recovers the words a line was put together from, each followed by a space |
| Text.CanonicalIgnoresCase | resolve/hosts/hosts.go:41 | Names that differ in case have one canonical form |
| Text.CanonicalIgnoresFinalDot | resolve/hosts/hosts.go:41 | So have names that differ in the final dot |
| ResolvConf.Dtoi | resolve/transport/helper.go:23-35 | The value of the leading digits, cut off at the bound; where it stopped; whether it fits |
| ResolvConf.NumberOfDecimal | resolve/transport/helper.go:23-35 | Reading a printed number gives it back, up to the bound |
| ConfMeaning.ReadConfig | resolve/transport/local.go:276-399 | The constructed object, field by field: the first three addresses of nameserver lines with port 53 and the defaults exactly if there is none; the search list of the last line that gives one and the default exactly if it is empty; the last numbers given, within their bounds; flags exactly if they occur |
| ConfMeaning.DirectiveMeans | resolve/transport/local.go:317-390 | A line that is not a comment does what its keyword says with the words after it; comments and blank lines do nothing |
| ConfMeaning.KeywordsMean | resolve/transport/local.go:324-390 | The keywords and what each stands for |
| ConfMeaning.OptionAliases | resolve/transport/local.go:366-380 | Options with several names, and the one without effect |
| ConfMeaning.SearchListIsAbsolute | resolve/transport/local.go:336-344 | The loop over a search line gives the absolute names without the root |
| ConfMeaning.WriteAndRead | resolve/transport/local.go:276-399 | A configuration that a file can express, with servers and a search list, comes out of the constructor unchanged; without them it differs by the defaults |
| ResolvConf.ConfigIsUsable | resolve/transport/local.go:276-399 | For every text: 1 to 3 servers, at least one attempt, ndots at most 15, a timeout that does not overflow, absolute search names |
| ResolvConf.DnsConfig.constructor | resolve/transport/local.go:276-399 | The parser computes the specified configuration, with defaults for missing servers and search list |
| ResolvConf.DnsConfig.ReadChunks | resolve/transport/local.go:305-391 | The loop over ReadLine applies the assembled lines in order |
| ResolvConf.DnsConfig.ReadLine | resolve/transport/local.go:317-390 | The effect of one line |
| ResolvConf.DnsConfig.ReadSearch | resolve/transport/local.go:336-344 | Replaces the search list by the absolute names, without the root |
| ResolvConf.DnsConfig.ReadOptions | resolve/transport/local.go:346-383 | Applies the options in order |
| ResolvConf.DnsConfig.ReadOption | resolve/transport/local.go:348-382 | The effect of one option, with its clamps |
| ResolvConf.DnsConfig.ServerOffset | resolve/transport/local.go:419-424 | The old counter when rotating, advancing it modulo 2^32; 0 otherwise |
| ConfRoundTrip.ReadsBack | resolve/transport/local.go:299-398 | Every configuration a file can express is read back unchanged before the defaults are put in, however the lines are split |
| NameList.AvoidsExactlyOnion | resolve/transport/helper.go:11-19 | A name is avoided exactly if it is empty or under the onion domain |
| NameList.List | resolve/transport/local.go:426-458 | The method computes the specified list |
| NameList.AppendExpanded | resolve/transport/local.go:448-453 | The loop appends the search list's names |
| NameList.NamesAreQueryable | resolve/transport/local.go:426-458 | Every name is absolute, at most 254 long and not an onion name |
| NameList.NamesExactly | resolve/transport/local.go:426-458 | Exactly which names are tried: those of at most 254 characters that are not onion names among the absolute name and its continuations; a rooted name alone; none for a name that is too long |
| NameList.BareNameOnce | resolve/transport/local.go:440-456 | The bare absolute name occurs once: first with at least ndots dots, last otherwise; the rest keeps the search order |
| NameList.ExpandedMeans | resolve/transport/local.go:448-453 | The names contributed are exactly the admissible ones over the suffixes |
| NameList.ExpandedAppend | resolve/transport/local.go:448-453 | They come in the order of the suffixes |
| ServerRotation.TryOneName | resolve/transport/local.go:131-170 | The questions asked follow the schedule up to the first answer or missing transport; otherwise all were asked and failed |
| ServerRotation.TryRound | resolve/transport/local.go:140-167 | One attempt asks every position in turn, up to the first answer or missing transport |
| ServerRotation.EveryServerAskedExactly | resolve/transport/local.go:140-142 | An all-failing search asks every server `attempts` times if and only if the sum does not wrap or 2^32 is a multiple of the number of servers |
| ServerRotation.ThreeServers | resolve/transport/local.go:140-142 | One or two servers are always all asked; three exactly unless the sum wraps, and then one is never asked |
| ServerRotation.RoundRotates | resolve/transport/local.go:140-142 | The order of a round: from the offset's residue to the next position each time, and on to the first where the sum wraps |
| ServerRotation.ConfiguredServersAreAsked | resolve/transport/local.go:131-170 | The same from the text of resolv.conf to the questions asked, for pulls that succeed |
| ServerRotation.NoServerIsAsked | resolve/transport/local.go:146-154 | As the keys are written no pull succeeds: every search ends at its first one, whatever the file says |
| ResolvConf.ServersNamePorts | resolve/transport/local.go:326-329 | No server of a configuration is named by an address alone |
| TransportTable.TableIsSafe | resolve/transport/local.go:215-274 | In every interleaving, for transports whose `Close` returns: keys are configured servers, evicted transports were closed once, no key has two open transports |
| TransportTable.PullHandsOutTheOneInUse | resolve/transport/local.go:246-274 | A pull gives the transport in use for its server, refuses exactly if the server is not configured then, and creates one exactly if there is none under the write lock |
| TransportTable.PullOf | resolve/transport/local.go:246-274 | A whole pull without interruption ends with the transport in use for its server, or is refused exactly if the server is not configured |
| TransportTable.SkipsExactly | resolve/transport/local.go:222-224 | The shortcut is right exactly for lists without duplicates |
| TransportTable.UpdateInstalls | resolve/transport/local.go:215-241 | An update installs the given servers unless the list has duplicates and the shortcut fires |
| TransportTable.DuplicatesKeepStaleServer | resolve/transport/local.go:222-224 | A run after which a removed server is still configured |
| TransportTable.Transports.constructor | resolve/transport/local.go:43-58 | The table starts empty, with no servers |
| TransportTable.Transports.UpdateTransports | resolve/transport/local.go:215-244 | The whole new state of an update |
| TransportTable.Transports.Evict | resolve/transport/local.go:236-241 | Closes and removes exactly the transports that are not kept |
| TransportTable.Transports.EvictOne | resolve/transport/local.go:237-240 | Closes and removes one transport |
| TransportTable.Transports.PullLocked | resolve/transport/local.go:259-273 | Looks again under the write lock; creates exactly if the server is configured and has no transport |
| Hosts.File.constructor | resolve/hosts/hosts.go:27-31 | The index starts empty |
| Hosts.File.Update | resolve/hosts/hosts.go:57-105 | The loop builds the index of the assembled lines; a read error keeps the old index |
| Hosts.File.EnterLine | resolve/hosts/hosts.go:84-100 | The effect of one line |
| Hosts.File.EnterNames | resolve/hosts/hosts.go:97-100 | Appends the address under each canonical name of the line, in order |
| Hosts.File.Lookup | resolve/hosts/hosts.go:37-42 | The entry under the canonical name |
| Hosts.IndexAgrees | resolve/hosts/hosts.go:57-105 | The index agrees with a plain scan of the lines on every name, in file order |
| Hosts.ReadAndLookup | resolve/hosts/hosts.go:37-105 | From the text, however it comes in pieces, to the addresses looked up: they are those of the plain scan exactly if no unfinished line is held at the end or it says nothing about the name |
| Hosts.LostLineExactly | resolve/hosts/hosts.go:69-83 | The same condition read off the text and the size of the buffer |
| Hosts.FullLineIsLost | resolve/hosts/hosts.go:69-83 | A file of one unterminated line that fills the buffer yields nothing |
| Hosts.FullLineIsLostInput | resolve/hosts/hosts.go:69-83 | Such a line that lists a name, which is then not found |
| Hosts.HitsMeans | resolve/hosts/hosts.go:97-100 | An address is listed once per occurrence of the name |
| Hosts.LineMeans | resolve/hosts/hosts.go:84-100 | A line contributes an address exactly if, up to its comment, it consists of words of which the first is that address and a later one the name in canonical form |
| Hosts.ScanMeans | resolve/hosts/hosts.go:57-105 | A name has exactly the addresses that some line lists for it |
| Hosts.ScanOfSum | resolve/hosts/hosts.go:57-105 | The addresses come in the order of the lines |
| Hosts.TabbedNameIsFound | resolve/hosts/hosts.go:84-105 | The usual kind of line: an address, a tab and a name that ends the line; looked up in any case it gives that address |
| Hosts.LoopbackIsFound | resolve/hosts/hosts.go:84-105 | One such input, `127.0.0.1`, a tab and `localhost`, looked up as `LocalHost` |
| DnsMessage.CalculateTTL | resolve/resolve.go:14-23 | The loops compute the message's TTL |
| DnsMessage.LowerTTL | resolve/resolve.go:16-20 | The loop over one section |
| DnsMessage.TTLMeans | resolve/resolve.go:14-23 | It is the minimum of the TTLs after the last zero, the true minimum without zeros, 0 exactly if there are none or the last is zero |
| DnsMessage.MinimumExactly | resolve/resolve.go:14-23 | It is the minimum of all TTLs if and only if none is zero or the last one is |
| DnsMessage.ZeroIsForgotten | resolve/resolve.go:17 | A message with the TTLs 0 and 300, for which it is 300 |
| DnsMessage.OptExactly | resolve/resolve.go:15-17 | When an OPT record anywhere in the additional section leaves it alone: exactly if a zero TTL follows, or its packed field is no less than a number that is not 0, or its field is 0 and the number is the least TTL that follows |
| DnsMessage.TrailingOptExactly | resolve/resolve.go:15-17 | A trailing OPT record leaves it alone exactly if its packed field is no less, or is 0 where it is 0; a plain one makes it 0 |
| DnsMessage.OverwriteTTL | resolve/resolve.go:25-31 | Every record gets the TTL; nothing else changes |
| DnsMessage.WriteTTL | resolve/resolve.go:27-29 | The loop over one section |
| DnsMessage.EdnsBackwards | resolve/resolve.go:33-45 | Only the additional section changes, as specified |
| DnsMessage.EdnsExactly | resolve/resolve.go:34-35 | The EDNS record of a message is the last record of type 41 in its additional section |
| DnsMessage.BackwardsMeans | resolve/resolve.go:33-45 | EDNS in the response only if in the request, in no higher version, with the DO flag kept; a replaced record has the request's UDP size |
| DnsMessage.BackwardsKeepsOthers | resolve/resolve.go:36-42 | All other records stay, each as often as before, in order |
| DnsMessage.Message.constructor | resolve/cache.go:41-48 | A new message with the given fields |
| DnsMessage.Message.Copy | resolve/cache.go:75 | A new message with equal fields |
| DnsCache.ServedTTLIsSafe | resolve/cache.go:63-82 | A served TTL is at least 1, fits 32 bits, and with the elapsed time never exceeds the stored lifetime |
| DnsCache.ServedExactly | resolve/cache.go:65-74 | An entry is served exactly while at least a second of its lifetime is left |
| DnsCache.UnitMatters | resolve/cache.go:119 | The serving time for seconds and for nanoseconds as the unit |
| DnsCache.HitTTLDerives | resolve/cache.go:112-130 | What a hit serves derives from the clamped TTL of the records, and exceeds none of them when no TTL is zero |
| DnsCache.RepliesFit | resolve/cache.go:75-104 | Every reply on the cached path has the request's id, EDNS exactly if request and message have, and no higher version; a built message keeps its DO flag, a hit has bit 15 of the served TTL in its place |
| DnsCache.RepliesCarryRecords | resolve/cache.go:75-104 | Replies carry the records of the message in order; a hit gives each of them the TTL that is left |
| DnsCache.HitKeepsDoExactly | resolve/cache.go:75-79 | A hit keeps the stored DO flag exactly if bit 15 of the served TTL equals it; below 2^15 the flag is always off |
| DnsCache.HitKeepsVersionExactly | resolve/cache.go:75-79 | The same for the version and bits 16 to 23 |
| DnsCache.NanosecondHits | resolve/cache.go:69-79 | In the code's unit a hit serves a TTL of 1 to 4, so its DO flag is off and its version 0 |
| DnsCache.HitLosesDo | resolve/cache.go:69-79 | A message that is served and loses the flag the first reply had: with seconds one second later, with nanoseconds under a least TTL of 2 * 10^9 and not without one |
| DnsCache.Cache.constructor | resolve/cache.go:148-161 | An empty cache with ordered bounds |
| DnsCache.Cache.StorableExactly | resolve/cache.go:107-118 | What is worth storing: one question and a lifetime that, in seconds, still serves it when a second has passed |
| DnsCache.Cache.Store | resolve/cache.go:107-124 | Stores exactly the messages with one question and a clamped TTL above 1, under that question; the table's whole new contents |
| DnsCache.Cache.Clear | resolve/cache.go:136-140 | Empties the table and reports its size |
| DnsCache.Cache.LoadOrStore | resolve/cache.go:39-105 | Every path's reply and table; no message that existed before is written to; every entry stays under its message's question |
| DnsCache.Cache.Hit | resolve/cache.go:75-79 | The reply made from a stored message is a new message |
| DnsCache.Cache.Miss | resolve/cache.go:83-104 | The reply made from a built message is a new message; successes are stored |
| DnsCache.StoreThenLoad | resolve/cache.go:39-124 | Storing and loading within the lifetime gives the stored records under the asker's id, with the whole seconds left as TTL |
| NatSession.FirstInFirstOut | netio/udpnat/conn.go:52-67 | For any sequence of calls: read, then handled, then queued packets are the kept arrivals in order; at most 64 wait; none once a handler took over |
| NatSession.FirstPacketsWait | netio/udpnat/new.go:64-73 | Of any number of packets before a handler or a read the first 64 wait and the rest is dropped |
| NatSession.KeptIsOrdered | netio/udpnat/new.go:64-73 | The kept arrivals are in arrival order, without repetition |
| NatSession.KeptAndDropped | netio/udpnat/new.go:67-72 | Kept and dropped packets add up to the arrivals |
| NatSession.NatConn.constructor | netio/udpnat/new.go:49-61 | A new session has a queue exactly if it has no handler |
| NatSession.NatConn.Dispatch | netio/udpnat/new.go:64-73 | To the handler, else into the queue, else dropped |
| NatSession.NatConn.TakeOver | netio/udpnat/conn.go:52-67 | The handler gets everything that waits, in order |
| NatSession.NatConn.ReadPacket | netio/udpnat/conn.go:109-124 | Any case that is ready can win, also a passed deadline over a packet; a packet taken is the oldest; otherwise nothing changes |
| NatSession.NatConn.Close | netio/udpnat/conn.go:78-86 | The close callback runs once |
| NatHandover.EveryPacketIsSomewhere | netio/udpnat/conn.go:52-67 | In every interleaving each packet that arrived is in exactly one place |
| NatHandover.ReadsTakeAll | netio/udpnat/conn.go:109-124 | From any state reads can take everything that waits, the oldest first |
| NatHandover.StrandedExactly | netio/udpnat/new.go:64-73 | After a handover a packet can still be stranded in the queue exactly if a call that had not seen the handler is on its way |
| NatHandover.OverlapStrands | netio/udpnat/new.go:64-73 | A run that strands a packet |
| NatHandover.ReordersExactly | netio/udpnat/conn.go:52-67 | With packets arriving one by one, a handover can put what the handler gets out of order if and only if a packet waits when the handler is stored |
| NatHandover.OverlapReorders | netio/udpnat/conn.go:52-67 | A run in which the handler gets a later packet first |
| UdpNat.Nat.constructor | netio/udpnat/new.go:88-113 | The table starts empty |
| NatRace.OverlapsExactly | netio/udpnat/new.go:40-63 | With a table that does not close what it replaces, the calls under way can leave a session open outside it if and only if two of them are for one source, or one is about to add a session beside a usable one |
| NatRace.CleanExactly | netio/udpnat/new.go:40-63 | In every interleaving all sessions outside the table are closed throughout if and only if no insertion finds an open session that it replaces without closing it |
| NatRace.TurnsStayClean | netio/udpnat/new.go:40-63 | So it is when packets of one source come one after another, or the table closes what it replaces |
| NatRace.CallOf | netio/udpnat/new.go:40-63 | A whole call without interruption gets the usable session, or a new one that is then in the table, or is refused if none can be prepared |
| NatRace.OverlapAbandons | netio/udpnat/new.go:42-62 | Two overlapping first packets leave a session open outside the table |
| UdpNat.Nat.NewPacket | netio/udpnat/new.go:40-76 | Which session gets the packet, when one is created or refused, and what the flag means; sessions outside the table are closed |
| UdpNat.Nat.Obtain | netio/udpnat/new.go:42-63 | The session in use or a prepared one |
| UdpNat.Nat.Add | netio/udpnat/new.go:62 | Enters a session in place of a closed one |
| UdpNat.Nat.Evict | netio/udpnat/new.go:106-108 | Evicted sessions are closed, the others untouched |
| UdpNat.Nat.EvictOne | netio/udpnat/new.go:106-108 | The eviction callback closes the session |
| UdpNat.Nat.Close | netio/udpnat/new.go:78-86 | Every session ever created is closed, its callback run once |

## Left out

- The pipe, the race, the UDP exchange and the handover are state machines over values: aliasing of the
  byte slices passed to `Read` and `Write`, and data races on memory, are not captured; steps are
  sequentially consistent.
- Deadline steps of the pipe may happen at any time: the checks of the `Set*Deadline` calls for a closed
  pipe (`netio/pipe/pipe.go:211-234`) only remove some of these runs. The wrapping of errors into
  `net.OpError` is not modelled.
- Dial contexts: cancellation only changes what a dial answers, and the answer is arbitrary. A dial is
  taken to answer eventually; a successful dial is taken to give a connection.
- The sort of addresses before a serial dial (`addrs/sorts.go:11-16`) is a parameter of `Decide`: any
  permutation; its order is not modelled.
- Truncation and the fallback to TCP (`resolve/transport/udp.go:69-81`), wire packing, buffers and pools.
- UdpExchange.RepliesAreOwn: a reply is matched by id only, as in the code; that it answers the question
  asked is not checked there.
- Text.FieldsExactly: strings are sequences of characters; UTF-8 decoding of the file's bytes is not
  modelled.
- Reload timing, file status and mtime of resolv.conf and hosts; the configuration used when the file
  cannot be opened.
- `exchangeParallel` (`resolve/transport/local.go:92-129`), which waits for its context when the name list
  is empty, and `exchangeSingleRequest`: thin loops over the searches modelled here.
- ServerRotation.ConfiguredServersAreAsked: takes every pull to succeed, which needs keys other than the
  code's; what happens with the code's own keys is `NoServerIsAsked`.
- Singleflight (`resolve/cache.go:87`): the builder's result is taken to be for the same question; the
  32-bit hash that names a flight is not modelled. A builder that gives no message and no error is left out.
- DnsCache.Cache.LoadOrStore: a stored message is the builder's own object; that its owner leaves it alone
  afterwards is taken for granted.
- Records are values, so a record shared between two messages is not captured.
- UdpNat.Nat.NewPacket: calls are taken one after another; `NatRace` has their two steps interleaved, without
  the packets. The table refreshes and expires entries by time; here the entries that have expired are a
  parameter, and whether it closes an entry that is replaced is a parameter of `NatRace`. Buffers that a
  dropped packet frees are not modelled.
- Socket options, interface binding, listeners, TCP fast open, copying and serial packet helpers, clients
  and the finite enumerations: they pass values through to the system or to a library.
