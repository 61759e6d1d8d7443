# 3AX-UI control loops: a verified model

This project models the control loops of the panel in Dafny and proves what they keep. It covers four clusters.

1. **Supervised sidecars.** `MtprotoConfig`, `MtprotoManager`, `MtprotoTraffic` and `MtprotoRuntime` model the manager
   of the MTProto proxies: fingerprints and rendered configs, the reconciliation of running processes with desired
   instances, and the collection of traffic with the lock released. `MtprotoReader` reads the rendered configs back and
   `MtprotoRecording` follows a scrape into the client table. `Supervisor` models the Cloudflare tunnel's generation
   counter with its exit watchers and restart timers, `TunnelRegistry` the hand-over of userspace tunnels between
   concurrent calls, and `LogWriter` the splitting of a child's output into log lines.
2. **Generated configuration.** `QuickConfig` holds the generator of the server config and the parser that reads it
   back, `ConfigRoundTrip` and `HookLines` the proof that the two fit. `Firewall` models the effect of shell commands on
   the kernel, `Hooks` the default PostUp and PostDown of both server flavours, `PortForward` the port lists and their
   rules. `HookReader` and `HookShell` read the hooks in the generated file as commands again, `Packets` says what the
   rules do to a packet and `PortList` which ports a typed list stands for. `TunnelClients` and `TunnelService` keep
   client rows, config file and live forwarding rules in step, and `TunnelTable` says what each operation leaves in
   them.
3. **Accounting and enforcement.** `Accounting` counts kernel counters that a bounce resets, `Enforcement` renews,
   activates and disables client rows, `InboundClients` and `InboundTable` keep traffic rows in step with client lists.
4. **Allocators and selectors.** `Ipam` allocates addresses, `CopiedEmails` searches free emails, `CopyRefusal` tells
   when a copy is refused, `CopiedClients` what it adds, `IpLimiter` decides which addresses of a client are kept.

`Text` (trimming, splitting, decimal numbers), `Options`, `Counters` and `Tunnel` (the rows the generators read) are
shared.

## How to read it

Objects that the source updates in place are classes (`Manager`, `Registry`, `Service`, `Table`, `Job`, `Writer`); each
of their methods is proved to reach a state given by a function on values, and the theorems are about those functions
and about runs of them. Concurrent code is a state machine whose steps are the critical sections and the events between
them, and its theorems speak of every run. `dafny verify dfyconfig.toml` checks everything.

Assumptions, all visible as parameters or preconditions:

- A process is live or dead, a stop ends it, and a scrape reads the process it was snapshotted from; there is one
  collector at a time. Whether a start succeeds, whether a binary is installed, the order of a map and the clock are
  inputs of the step.
- Client ids of one MTProto instance are distinct, as the service's check on creation enforces
  (web/service/mtproto_service.go:88-93).
- Parsing and printing of IP addresses and prefixes, Go's `%q` quoting, lower-casing of runes and the library sort are
  function parameters; what is needed of them is stated (`Faithful`, `Caseless`, `Sorts`).
- A hook is run by cutting the file's value at semicolons and its commands at blanks, without quoting. Where a printed
  field holds a blank or a semicolon the shell reads other words than were meant, so statements about runs of the tunnel
  ask that the hooks in the file are read as generated (`TunnelClients.AlwaysRuns`); `TunnelTable.PlainRequestsRun` says
  from the inputs when they are.
- The file is read by the line rules of the repository's own parser, also on behalf of `awg-quick`, whose source is not
  part of this model; a quoted TOML string begins with a quote and stays on its line (`MtprotoReader.Quotes`).
- A run over the client table starts with the tunnel down; reloads succeed without a restart of the interface, and the
  server row does not change but for its enable flag.

Where the source and its words differ, the model follows the code:

- `RecordTraffic` is documented to answer whether the active client set changed; it answers whether an enable flag
  changed (`Enforcement.FlagVersusServedSet` says for every table exactly when the two differ, `Enforcement.AnswerCanMislead`
  shows both cases).
- The IPv6 allocator accepts any pool, but its shift overflows from 63 host bits on
  (`Ipam.ShortPrefixesHaveNoCandidate`).
- `UpdateInbound` accepts a list that repeats a kept email, after which lists and rows no longer match one to one
  (`InboundClients.SyncKeepsTracked`, `InboundClients.SyncAcceptsRepetition`, `InboundClients.RepetitionThenRename`);
  `DelInboundClient` drops the row of only the last client with the key (`InboundClients.DelKeepsTracked`,
  `InboundClients.DelLeavesFirstRow`). An update request for a sidecar drops the list of any inbound and leaves its rows
  (`InboundClients.SidecarKeepsTracked`).
- Fingerprints join fields that can hold the separator. For the MTProto proxies it is sufficient that neither of two
  instances has separators in its fields (`MtprotoConfig.FingerprintExact`); it is not enough that one has none
  (`MtprotoConfig.SeparatorsMatter`). For the Cloudflare tunnel `Supervisor.UnmistakableExactly` says of each config
  when no other can be taken for it, and `Supervisor.MistakenIsNotServed` what happens otherwise.
- The copied-email search looks at existing emails without their surrounding quotes and can choose one that exists; the
  addition that follows then refuses the copy. `CopyRefusal.CopyRefusedExactly` says when, from the tables before the
  call, and `CopiedEmails.CopyCanBeRefused` gives an input; a copy that succeeds only ever adds fresh emails
  (`CopiedEmails.CopyAddsFresh`).
- The lookup of a client for writing its subscription id back knows fewer protocols than the edit it uses
  (web/service/inbound.go:1258-1269); `CopiedClients.LookupsAgreeExactly` says for which they differ.

## Model

| member | source | states |
|---|---|---|
| `MtprotoConfig.ComputeFingerprint` | mtproto/manager.go:69-98 | the loop over the active clients yields the fingerprint of the instance |
| `MtprotoConfig.RenderConfig` | mtproto/manager.go:503-551 | the writer yields the TOML text of the instance for a stats port, sections in order, for any quoting function |
| `MtprotoConfig.FingerprintExact` | mtproto/manager.go:69-98 | for instances without separators in their fields, fingerprints are equal if and only if every rendered setting and the active clients are |
| `MtprotoConfig.EqualFingerprintsRenderAlike` | mtproto/manager.go:69-98 | equal fingerprints render the same config for the same stats port, so a verdict of nothing changed hides no change |
| `MtprotoConfig.SeparatorsMatter` | mtproto/manager.go:82-88 | an email with `|` and `=`, which the service stores as it is, makes one client's fingerprint that of two, while for every quoting their configs differ |
| `MtprotoReader.HeadIsRead` | mtproto/manager.go:503-524 | a reader of the rendered text finds every top-level key exactly when it is set, with its value: where to listen, the API port, the first client's secret in single-user mode, the switches and the preferred IP |
| `MtprotoReader.SecretsAreRead` | mtproto/manager.go:514-519 | the reader finds the secret of every client under its id in order in multi-user mode, and no secrets section otherwise |
| `MtprotoReader.RestIsRead` | mtproto/manager.go:525-551 | the reader finds fronting, routing and statistics settings in their sections exactly when they are wanted |
| `MtprotoManager.EnsuredStep` | mtproto/manager.go:247-280 | one ensure, whatever the start answers: processes stay distinct and none runs unmanaged; the entry exists exactly if it was current or the start succeeded; every other entry and process is untouched |
| `MtprotoManager.EnsuredAllSettles` | mtproto/manager.go:312-316 | the loop of ensures settles each distinct id independently of the others, for any mixture of failing starts |
| `MtprotoManager.ReconcileSettles` | mtproto/manager.go:297-317 | after a pass with any failing starts: exactly the desired ids that were current or started are managed and match their instance, unchanged running entries keep process and baselines, and the running processes are exactly the managed ones |
| `MtprotoManager.ReconcileConverges` | mtproto/manager.go:297-317 | when every start succeeds the managed ids are exactly the desired ones, each serving its instance |
| `MtprotoManager.SecondReconcileIsIdle` | mtproto/manager.go:297-317 | a second pass for the same instances leaves the whole state, processes included, as it is |
| `MtprotoManager.ReconcileConfigs` | mtproto/manager.go:247-317 | after a pass every managed proxy's file on disk is what its desired instance renders to and its traffic is attributed to that instance's active clients, also where the fingerprint left the process running |
| `MtprotoManager.DroppedExactly` | mtproto/manager.go:283-328 | of the removed ids the managed ones are stopped and forgotten and their files are gone; entries, processes and files of all others stay |
| `MtprotoManager.ReconcileCleansUp` | mtproto/manager.go:247-317 | after a pass with any failing starts: files of managed ids no longer desired are gone, files of unmanaged ids stay, and each start that was needed left what such a start leaves, a successful one the text for its port and a new running process with fresh baselines |
| `MtprotoRuntime.Manager.EnsureLocked` | mtproto/manager.go:247-280 | the method reaches the state of one ensure and reports failure exactly when it had to start and could not |
| `MtprotoRuntime.Manager.Remove` | mtproto/manager.go:283-292 | stops, forgets and deletes the file of a managed id, and nothing for another id |
| `MtprotoRuntime.Manager.Reconcile` | mtproto/manager.go:297-317 | the method reaches the reconciled state, whatever the order in which the map is walked |
| `MtprotoRuntime.Manager.StopAll` | mtproto/manager.go:320-328 | ends with nothing managed and every managed process stopped |
| `MtprotoRuntime.Manager.Snapshot` | mtproto/manager.go:348-370 | copies each running managed process exactly once |
| `MtprotoRuntime.Manager.Collect` | mtproto/manager.go:372-444 | the deltas and the written-back counters of one scraped snapshot; the deltas carry the snapshot's tag and tell, exactly once each, of the served clients that were connected or moved bytes, with id, email, bytes and the time seen |
| `MtprotoRuntime.UserDeltas` | mtproto/manager.go:380-406 | the per-user loop computes the new counters of exactly the served users that were reported; every reported one with an open connection or growth has exactly one delta and nobody else has one, seen now if connected and 0 otherwise |
| `MtprotoTraffic.CreditedUsers` | mtproto/manager.go:381-406 | with distinct ids a scrape credits each served client exactly the clamped growth since its baseline and nobody else anything |
| `MtprotoTraffic.DeltasTell` | mtproto/manager.go:380-443 | for every reading, in both modes: who gets a delta, and what tag, id, email, bytes and last-seen time it carries |
| `MtprotoTraffic.ScrapesWhatIsServed` | mtproto/manager.go:264-370 | after a pass the collector scrapes each desired instance that runs and nothing else, under its tag, for its active clients, on the port its config file names |
| `MtprotoTraffic.FirstScrapeCreditsNothing` | mtproto/manager.go:388-397 | the first scrape of a process only sets its baseline, in both modes |
| `MtprotoTraffic.ScrapesAreExact` | mtproto/manager.go:386-437 | after a write-back the next scrape of the undisturbed process credits exactly the growth between the two readings, in both modes |
| `MtprotoTraffic.DeltaBound` | mtproto/manager.go:387-397 | a delta is not negative and fits into what the process carried beyond what was already credited |
| `MtprotoTraffic.NextIsSafe` | mtproto/manager.go:334-444 | every step (traffic, crash, ensure, remove, reconcile, stop, snapshot, scrape, failed scrape, write-back) keeps each baseline at or above what its process was credited with, also when a write-back hits the replacement of the scraped process |
| `MtprotoTraffic.NeverOverCounted` | mtproto/manager.go:334-444 | over every interleaving the deltas returned for a client sum to at most the bytes its processes carried for it, and each process is credited at most its own |
| `MtprotoTraffic.DeltasAreExact` | mtproto/manager.go:334-444 | over every run in which no write-back meant for another process hits the entry of a process and each of its own tells about the client, the deltas returned for the client from that process sum to its last written reading less its first |
| `MtprotoRecording.ScrapeIsRecorded` | web/service/mtproto_service.go:274-296 | collecting and recording: the row of a client that a multi-user proxy serves grows by exactly the bytes moved since the last scrape, and its time last online becomes now if it moved bytes, the scrape's time if it was only connected, and stays otherwise; every other field stays |
| `MtprotoRecording.OnlineAfterwards` | web/service/mtproto_service.go:274-305 | the time last online is the same after the renewal and quota passes, and the collector reports nothing negative |
| `MtprotoRecording.UnmentionedIsKept` | web/service/mtproto_service.go:274-296 | deltas of others leave a row alone |
| `Supervisor.NextKeepsInv` | cloudflared/manager.go:49-166 | every step keeps: a running process is the manager's and its watcher has the current generation, current-generation timers belong to the manager's exited process, a disabled manager has no process |
| `Supervisor.StartsAreWanted` | cloudflared/manager.go:117-166 | a process starts only in an enabled Apply or by the current generation's timer while enabled with the old process dead, and never beside a running one |
| `Supervisor.AtMostOneTunnel` | cloudflared/manager.go:49-166 | in every interleaving at most one tunnel runs; it is the manager's, the tunnel is enabled and its watcher carries the current generation |
| `Supervisor.QuietAfterStop` | cloudflared/manager.go:79-84 | after Stop nothing runs or starts until an enabled Apply, whatever watchers and timers are pending |
| `Supervisor.SupervisionKept` | cloudflared/manager.go:66-166 | an enabled tunnel runs or has a pending restart, and loses that in exactly two ways: the timer's restart fails, or Apply ends without a process for an invalid config, a missing binary or a failed start |
| `Supervisor.OnlyApplyRegains` | cloudflared/manager.go:49-76 | what was lost comes back exactly with an enabled Apply that can start |
| `Supervisor.UnmistakableExactly` | cloudflared/config.go:91-113 | every valid enabled config with the fingerprint of a given one needs the same arguments if and only if: in token mode no `|` stands in the token after its first rune nor in the target; in quick mode none stands in the token, and after each one in the target only blanks follow |
| `Supervisor.FingerprintFixesConfig` | cloudflared/config.go:111-113 | valid enabled configs whose tokens hold no `|` are equal when their fingerprints are |
| `Supervisor.TokenSeparatorMatters` | cloudflared/config.go:111-113 | two valid configs with `|` in a token that share a fingerprint and need different arguments |
| `Supervisor.MistakenIsNotServed` | cloudflared/manager.go:66-70 | for every valid config that fails the condition there is another one whose Apply afterwards leaves the tunnel running with the old arguments |
| `Supervisor.RunServesConfig` | cloudflared/manager.go:49-141 | over every run whose valid enabled configs meet the condition the running tunnel has the arguments of the config applied last, restarts included |
| `Supervisor.ArgsAreRead` | cloudflared/manager.go:103-114 | read word by word, the arguments ask for the named tunnel of the token in token mode and for a quick tunnel to the target otherwise, never with auto-update |
| `Supervisor.RunIsAsAsked` | cloudflared/manager.go:49-141 | over every run whose valid enabled configs meet the condition, what the running tunnel was told is what the config applied last asks for |
| `Supervisor.Manager.StartLocked` | cloudflared/manager.go:117-129 | a failed start changes nothing; a successful one bumps the generation and leaves one watcher with it |
| `Supervisor.Manager.StopLocked` | cloudflared/manager.go:131-141 | voids the generation and stops the process, or does nothing without one |
| `Supervisor.Manager.Apply` | cloudflared/manager.go:49-76 | reaches the applied state and reports an error exactly for an invalid config or a failed start |
| `Supervisor.Manager.Stop` | cloudflared/manager.go:79-84 | reaches the stopped and disabled state |
| `Supervisor.Manager.SeeExit` | cloudflared/manager.go:145-150 | a stale watcher ends, a current one goes on |
| `Supervisor.Manager.Arm` | cloudflared/manager.go:151-156 | an intentional stop ends the watcher, otherwise its timer is armed |
| `Supervisor.Manager.Fire` | cloudflared/manager.go:156-165 | a stale or disabled timer does nothing, another restarts |
| `TunnelRegistry.OwnershipHolds` | shared/wgengine/engine.go:89-126 | in every interleaving of Up, Reload and Down each started tunnel is registered under one name, held by one call, or was closed exactly once, and entries show the config their tunnel was started from |
| `TunnelRegistry.NoLeakAtRest` | shared/wgengine/engine.go:89-126 | once all calls returned, the tunnels not closed are exactly the registered ones |
| `TunnelRegistry.Registry.Commit` | shared/wgengine/engine.go:102-108 | the locked part of Up closes the old tunnel of the name once and replaces it |
| `TunnelRegistry.Registry.Take` | shared/wgengine/engine.go:117-122 | the locked part of Down hands the entry over and forgets it |
| `TunnelRegistry.Registry.Running` | shared/wgengine/engine.go:129-133 | true exactly for registered names |
| `QuickConfig.GenerateServerConfig` | awg/config.go:76-129 | the builder yields the lines of the config text, for both flavours; what these lines say to their readers is stated by ConfigRoundTrip.RoundTrip and HookReader.HooksAreFound |
| `QuickConfig.ParseQuickConfig` | shared/wgengine/engine.go:149-237 | the line loop with its section and peer state yields the parsed config or one of the two errors |
| `QuickConfig.AppendPrefixes` | shared/wgengine/engine.go:241-262 | appends exactly the valid prefixes of the list, in order |
| `QuickConfig.WriteObfuscation` | awg/config.go:45-64 | writes the obfuscation entries, S3, S4 and I1 only when set |
| `QuickConfig.PrefixesTrim` | shared/wgengine/engine.go:241-262 | surrounding blanks do not change the prefixes of a list |
| `QuickConfig.PrefixesJoin` | awg/config.go:83-87 | joining two address lists with a comma joins their prefixes |
| `ConfigRoundTrip.RoundTrip` | shared/wgengine/engine.go:149-237 | for every server and client list whose printed fields hold no newline, parsing the generated text gives key, port, MTU (1420 if unset), addresses, the exact obfuscation map and one peer per enabled client in order, or the two errors exactly for a blank key or a port that is not positive |
| `ConfigRoundTrip.TrimmedFieldsComeBack` | awg/config.go:115-126 | keys with nothing to trim come back as stored |
| `ConfigRoundTrip.ObfuscationIsRead` | awg/config.go:45-64 | the parser's map from the obfuscation lines is the expected one, keys in lower case |
| `ConfigRoundTrip.HooksAreIgnored` | awg/config.go:99-112 | hook lines change nothing, whatever `=` they hold |
| `ConfigRoundTrip.PeersAreRead` | awg/config.go:115-126 | the peer sections of enabled clients become peers in order |
| `ConfigRoundTrip.StepEntry` | shared/wgengine/engine.go:163-186 | a printed entry is cut at its first `=` and both sides come back trimmed |
| `HookLines.HooksAreOneLine` | awg/config.go:213-383 | generated hooks hold no newline when the fields do not |
| `HookReader.HooksAreFound` | awg/config.go:98-112 | for every server and client list, a reader of the printed file finds under `PostUp` and under `PostDown` the custom hook or else the text of the up and of the down commands, once each, and nothing if that is empty |
| `HookShell.CommandIsRead` | awg/config.go:213-383 | the words of a generated command, of plain words, are read as that command |
| `HookShell.HookIsRead` | awg/config.go:213-383 | a hook text cut at its semicolons and blanks is read as its commands in order |
| `HookReader.PlainHooksRun` | awg/config.go:98-112 | when no printed field holds a blank or a semicolon, running what the file says under `PostUp` and `PostDown` is running the up and the down commands |
| `Firewall.AppendActsOnItsChain` | awg/config.go:220-225 | `iptables -A` adds the rule at the end of its own chain and leaves every other chain alone |
| `Firewall.DeleteActsOnItsChain` | awg/config.go:337-342 | `iptables -D` removes the first match from its own chain and leaves every other chain alone |
| `Firewall.CyclesInterleaveRules` | awg/config.go:213-383 | two scripts of up and down cycles that each delete only what they appended can be interleaved in any way: the kernel holds the base plus what is still up |
| `Firewall.CyclesInterleaveItems` | awg/config.go:213-383 | the same for policy rules, routes and proxy entries of separate territories |
| `Hooks.GenerateDefaultPostUp` | awg/config.go:213-272 | the builder yields the text of the up commands |
| `Hooks.GenerateDefaultPostDown` | awg/config.go:330-383 | the builder yields the text of the down commands |
| `Hooks.HooksMirror` | awg/config.go:213-383 | for every server and client list PostDown deletes exactly the rules PostUp appends and removes exactly the items it adds |
| `Hooks.PostDownUndoesPostUp` | awg/config.go:213-383 | from any kernel, up then down restores all rules as a multiset, in their order if no generated rule was present, and the items exactly when none of the hook's own was present |
| `Hooks.FlavoursAreSeparate` | wg/config.go:168-173 | an AmneziaWG and a native server share no policy rule or route; they are separate exactly when they proxy different addresses |
| `Hooks.TunnelsCoexist` | wg/config.go:174-342 | both tunnels up and down any number of times, interleaved in any way, leave the base plus the hooks of those still up |
| `Hooks.ForwardCommands` | shared/portfwd/portfwd.go:192-210 | the forwarding part of a hook is the append or delete form of the enabled clients' rules |
| `Hooks.ProxiesExactly` | awg/config.go:249-258 | exactly the enabled clients with an IPv6 address are answered for by a neighbour proxy |
| `Packets.BaseRulesDo` | awg/config.go:213-240 | packets of the pool that leave by the external interface are masqueraded unless the proxy takes them, and exactly what comes in or goes out by the tunnel is forwarded |
| `Packets.Ipv6RulesDo` | awg/config.go:241-248 | exactly the IPv6 packets that come in or go out by the tunnel are forwarded |
| `Packets.TproxyDoes` | awg/config.go:268-300 | exactly the packets of the protocol that come in by the tunnel are handed to the proxy's local port with the mark whose policy leads to the local route |
| `Packets.ClientRulesDo` | shared/portfwd/portfwd.go:145-188 | a TCP or UDP packet that comes in by the external interface is redirected to the client's address exactly if its port is listed, and let through to the tunnel exactly if it is for that address and a listed port; port arguments are read from their text |
| `Packets.PortsReachClients` | shared/portfwd/portfwd.go:145-210 | of a whole client list, a port reaches an address exactly if an enabled client with that address lists it |
| `PortForward.Parse` | shared/portfwd/portfwd.go:43-71 | the token loop yields the valid specs of the list without repetitions |
| `PortForward.ParseToken` | shared/portfwd/portfwd.go:73-87 | a parsed token is a port or an ordered range within 1 to 65535 |
| `PortList.StandsForTrimmed` | shared/portfwd/portfwd.go:73-95 | a token is accepted as a spec exactly when it shows one port, or two in order with a dash between, as decimal numerals with blanks allowed around each |
| `PortList.ExactlyThoseTyped` | shared/portfwd/portfwd.go:43-95 | for every text, a spec is parsed exactly when some piece between two neighbouring commas, semicolons or ends of the text stands for it |
| `PortForward.Normalize` | shared/portfwd/portfwd.go:100-114 | yields the canonical text of the list |
| `PortForward.FirstOccurrencesOrder` | shared/portfwd/portfwd.go:52-69 | the specs kept are pairwise distinct and stand in order of their first occurrence |
| `PortForward.ResultIsValid` | shared/portfwd/portfwd.go:43-71 | for every input the specs are valid and pairwise distinct |
| `PortForward.ParseOfCanonical` | shared/portfwd/portfwd.go:43-114 | for every input, parsing the canonical text gives the specs of the input |
| `PortForward.CanonicalIsStable` | shared/portfwd/portfwd.go:100-114 | for every input, normalising twice is normalising once |
| `PortForward.SeenMeansPresent` | shared/portfwd/portfwd.go:61-66 | the text key of a spec is in the seen set exactly when the spec was kept |
| `PortForward.Rules` | shared/portfwd/portfwd.go:145-188 | the nested loops yield the rule set of the specs, empty without ports or address |
| `PortForward.RulesShape` | shared/portfwd/portfwd.go:145-188 | each spec contributes a TCP and a UDP rule to each list, in the order of the specs |
| `PortForward.LineIsCommandText` | shared/portfwd/portfwd.go:215-227 | the joined shell line is the text of the append or delete command on the rule the arguments denote |
| `Ipam.AllocateIPv4` | shared/ipam/ipam.go:14-48 | in 32-bit arithmetic, for every prefix length including /0: the answer, read as a dotted quad with the highest byte first, is the network plus the lowest offset from 2 up to but excluding the last that neither the server's nor any used text reads as; failure exactly when there is none |
| `Ipam.Limit4` | shared/ipam/ipam.go:35-39 | the wrapping shift and subtraction give the true limit for 0 to 32 host bits |
| `Ipam.OctetsRejoin` | shared/ipam/ipam.go:34-41 | the four bytes are bytes, and the address is their big-endian value |
| `Ipam.QuadIsRead` | shared/ipam/ipam.go:39-44 | a printed address reads back as that address |
| `Ipam.QuadIsUnique` | shared/ipam/ipam.go:39-44 | a text that reads as an address is its printed form, so comparing texts compares addresses |
| `Ipam.DottedQuadInjective` | shared/ipam/ipam.go:40-44 | different addresses have different texts |
| `Ipam.DottedQuadStrips` | shared/ipam/ipam.go:43-43 | an answered address strips to itself when it is passed in as used later |
| `Ipam.AllocateIPv6` | shared/ipam/ipam.go:52-101 | the lowest free offset from 2 below the capped 64-bit shift, never beyond 128 bits, and failure exactly when all candidates are used |
| `Ipam.ShortPrefixesHaveNoCandidate` | shared/ipam/ipam.go:79-84 | there is no candidate exactly for at most one or at least 63 host bits, so prefixes of /65 or shorter always fail; between, the limit is the pool size capped at 65536 |
| `Ipam.NewAddressIsUnused` | shared/ipam/ipam.go:58-97 | a new IPv6 address is neither the server's nor one of the used ones once they are parsed |
| `TunnelClients.SavedRules` | web/service/awg_service.go:503-539 | saving a row exchanges its forwarding rules for those of the row it replaces |
| `TunnelClients.DiffKeepsStep` | web/service/awg_service.go:1007-1025 | applying the diff of a table change keeps the live rules equal to a fresh bring-up for the new table |
| `TunnelClients.HookRules` | awg/config.go:213-272 | PostUp's rules are fixed ones around the forwarding rules of the table |
| `TunnelClients.ReappliedKeepsInv` | web/service/awg_service.go:526-539 | a table change on an enabled server keeps the kernel in step both when its interface is up, by the diff, and when it is missing, by bringing it up |
| `TunnelClients.NextKeepsInv` | web/service/awg_service.go:395-586 | every add, edit, toggle, delete and interface switch, and an interface taken down by hand, keeps table order, config file and kernel in step, where bring-up and take-down run the hooks read from the file on disk |
| `TunnelClients.IncrementalIsFromScratch` | web/service/awg_service.go:489-497 | after any run of these, with the tunnel going up and down at will by the hooks the file holds, the live rules are as a multiset those of a fresh PostUp for the current table over the kernel's own, and the kernel's own while the tunnel is down, provided the file's hooks read as generated |
| `TunnelClients.AddressesStayDistinct` | web/service/awg_service.go:433-460 | over any run of additions, deletions, toggles, switches and edits that leave their row's addresses alone, no two rows share an IPv4 or an allocated IPv6 address, nor does a row with the server |
| `TunnelClients.EditKeepsDistinct` | web/service/awg_service.go:503-521 | an edit that leaves its row's addresses alone keeps all addresses distinct |
| `TunnelTable.PlainRequestsRun` | web/service/awg_service.go:395-586 | that proviso holds over every run with generated hooks whose requests and server fields hold no blank, semicolon or newline where they are printed |
| `TunnelTable.PlainRequestsFromScratch` | web/service/awg_service.go:395-586 | so over every run of such requests the live rules are those of a fresh bring-up |
| `TunnelTable.OperationsChangeOneRow` | web/service/awg_service.go:395-634 | an addition stores the request under a new id with the allocated addresses as its tunnel and allowed IPs, an edit stores the request with normalised ports, a toggle changes the flag, a deletion removes the row; every other row stays |
| `TunnelTable.InterfaceFollows` | web/service/awg_service.go:241-586 | enabling brings the interface up and disabling takes it down, an addition enables, whatever applies the config leaves an interface that is up and the file for the new table, and nothing else touches either |
| `TunnelService.Service.RunIptables` | shared/portfwd/portfwd.go:244-260 | one append or delete per rule, in order |
| `TunnelService.Service.ApplyForwardingDiff` | web/service/awg_service.go:1007-1025 | revokes the old client's rules, then applies the new one's |
| `TunnelService.Service.ApplyServerConfig` | web/service/awg_service.go:959-990 | rewrites the config and brings a missing interface up; the proxy entries and a failing reload are left out, as said below |
| `TunnelService.Service.Allocate` | web/service/awg_service.go:433-460 | fails exactly when a needed pool is invalid or full, else answers the lowest free addresses |
| `TunnelService.Service.AddClient` | web/service/awg_service.go:395-500 | fails without effect exactly for a malformed or used id or a pool without room; otherwise adds the row with the allocated addresses and updates the kernel |
| `TunnelService.Service.UpdateClient` | web/service/awg_service.go:503-541 | fails exactly for a malformed id; otherwise saves the row with normalised ports and, on an enabled server, brings a missing interface up or applies the diff against the stored row |
| `TunnelService.Service.DeleteClient` | web/service/awg_service.go:555-586 | fails exactly for a missing row, otherwise removes it and its rules |
| `TunnelService.Service.ToggleClient` | web/service/awg_service.go:627-634 | fails exactly for a missing row or a malformed stored id, otherwise saves it with the flag |
| `TunnelService.Service.ToggleServer` | web/service/awg_service.go:241-266 | enabling configures, disabling runs the down hook of the file on disk |
| `Accounting.PollIsPerClient` | web/service/awg_service.go:712-778 | with unique keys a poll counts each listed peer for its own row and leaves unlisted rows alone |
| `Accounting.PolledFields` | web/service/awg_service.go:725-775 | each direction of a listed row grows by the bytes since the baseline, or by the whole counter if that fell; baselines, last handshake in milliseconds and last address are those of the dump, other fields stay |
| `Accounting.EndpointIsRead` | web/service/awg_service.go:762-772 | the last address is the endpoint's host, without port and IPv6 brackets |
| `Accounting.NextKeepsInv` | web/service/awg_service.go:725-749 | every step keeps carried bytes equal to counted plus waiting plus lost ones, in each direction, and all_time equal to the counted ones |
| `Accounting.NeverOverCounted` | web/service/awg_service.go:725-749 | over every run of traffic, bounces, polls, resets, renewals and toggles all_time grows by at most the bytes carried and exactly by what was counted, and upload and download are what was counted since the last reset |
| `Accounting.StepLoses` | web/service/awg_service.go:725-749 | a step loses bytes of a direction exactly when it is a bounce that does not find the counter where the last poll left it, or a poll after a bounce that reads at or above a positive baseline |
| `Accounting.ExactIffClean` | web/service/awg_service.go:725-749 | in each direction the growth is exact, up to what waits in the kernel, if and only if no step of the run was of that kind |
| `Accounting.BounceAfterPollIsClean` | web/service/awg_service.go:725-749 | in a run whose bounces directly follow polls no bounce loses anything |
| `Accounting.ExactWhenBouncesFollowPolls` | web/service/awg_service.go:725-749 | over every run whose bounces directly follow polls and whose next polls read below the old baselines or had none, all_time grows by exactly the bytes carried, up to what waits in the kernel |
| `Enforcement.NextExpiryIsLeast` | web/service/awg_service.go:814-817 | the renewed expiry lies after now, a whole number of periods after the old one, and one period earlier it would not |
| `Enforcement.FirstOnTheGrid` | web/service/awg_service.go:814-817 | no earlier instant on the grid of periods lies after now |
| `Enforcement.NoneOverTheLimit` | web/service/awg_service.go:838-853 | after a pass no enabled client is over quota or expired |
| `Enforcement.RenewedEndsEnabled` | web/service/awg_service.go:799-834 | a due client ends enabled with zeroed traffic and that expiry, in both services |
| `Enforcement.SecondPassIsIdle` | web/service/awg_service.go:780-787 | at the same instant a second pass changes nothing |
| `Enforcement.EnabledAfterwards` | web/service/awg_service.go:780-787 | enabled afterwards are exactly the due clients and the enabled ones within their limits |
| `Enforcement.RenewalExpiry` | web/service/awg_service.go:814-817 | the loop terminates at the next expiry |
| `Enforcement.RecordedExactly` | web/service/mtproto_service.go:274-296 | upload, download and lifetime total grow by exactly the sums of the up, of the down and of both deltas recorded for the row's id; a row without an id and every other field but the time last online stay |
| `Enforcement.EnabledAfterRecording` | web/service/mtproto_service.go:269-351 | enabled after recording are exactly the due clients and those that were enabled, are not expired and whose old traffic with the recorded deltas stays below a positive quota |
| `Enforcement.OtherFieldsKept` | web/service/awg_service.go:780-881 | a pass touches nothing but flag, expiry and traffic, and the traffic only of due clients |
| `Enforcement.LifetimeStarts` | web/service/awg_service.go:858-881 | a pending lifetime turns into the instant that far after now exactly when the client is enabled with traffic, and never in the MTProto service |
| `Enforcement.InstantsStay` | web/service/awg_service.go:799-881 | an expiry that is an instant, or none, moves only by a renewal |
| `Enforcement.FlagsAddUp` | web/service/awg_service.go:780-787 | no flag is flipped twice in a pass, so the passes' own answers add up |
| `Enforcement.FlagVersusServedSet` | web/service/mtproto_service.go:269-305 | for every table, the flags stay while the served set changes exactly when no flag flips and some client is renewed while enabled, and flags change while the served set stays exactly when nobody is due or newly over quota and some expired client is disabled |
| `Enforcement.AnswerCanMislead` | web/service/mtproto_service.go:307-351 | a one-row table for each of the two cases |
| `Enforcement.Table.UpdateCounters` | web/service/awg_service.go:718-778 | the loop over the dump reaches the polled table |
| `Enforcement.Table.AutoRenew` | web/service/awg_service.go:799-834 | renews exactly the due rows and answers whether a flag changed |
| `Enforcement.Table.AdjustDelayedStart` | web/service/awg_service.go:858-881 | activates exactly the enabled rows with a pending lifetime and traffic |
| `Enforcement.Table.DisableInvalid` | web/service/awg_service.go:838-853 | disables exactly the enabled rows over a limit and answers whether there were any |
| `Enforcement.Table.UpdateTrafficStats` | web/service/awg_service.go:691-794 | poll, renewal, activation and disabling together; the config is reapplied exactly when the enforcement changed some flag |
| `Enforcement.Table.RecordTraffic` | web/service/mtproto_service.go:269-305 | deltas, renewal and disabling together; every row has grown by exactly its deltas and is enabled, renewed or disabled accordingly; the answer is true exactly when some flag changed, and it misses or overstates a change of the served set exactly in the two cases told from the credited rows |
| `InboundClients.AddKeepsTracked` | web/service/inbound.go:1122-1256 | a successful addition keeps rows and emails in bijection, gives each added email a zeroed row with its client's limits, and keeps every other row and inbound |
| `InboundClients.UpdateKeepsTracked` | web/service/inbound.go:1559-1747 | a successful edit keeps the bijection; the row moves with the email, keeps its counters and takes the new limits, or is dropped or created; every other row stays |
| `InboundClients.DelKeepsTracked` | web/service/inbound.go:1454-1557 | a successful deletion keeps the bijection exactly when only the last of the removed clients has an email, as with unique keys; other rows stay in any case |
| `InboundClients.DelLeavesFirstRow` | web/service/inbound.go:1485-1529 | a concrete table in which two clients share a key: deleting it removes both and leaves the row of the first |
| `InboundClients.WithoutKeyCounts` | web/service/inbound.go:1481-1495 | every client with the key is removed from the list and the others stay as often as before |
| `InboundClients.SyncKeepsTracked` | web/service/inbound.go:873-959 | an update stores the new protocol and list; its row sync leaves rows that cover the list, kept emails keep their rows, other inbounds are untouched, and the list matches one to one exactly when it repeats no kept email |
| `InboundClients.SidecarKeepsTracked` | web/service/inbound.go:627-675 | an update request for a sidecar drops the inbound's list and no row, so it keeps the bijection exactly when the inbound has no email |
| `InboundClients.SyncAcceptsRepetition` | web/service/inbound.go:1093-1118 | a concrete table whose list is replaced by one that repeats a kept email: accepted, and no longer one to one |
| `InboundClients.KeptOnceIsDistinct` | web/service/inbound.go:1106-1117 | the sync itself refuses repeated new emails, so only kept ones can repeat |
| `InboundClients.RenameAfterDuplicate` | web/service/inbound.go:1675-1684 | renaming one of two clients that share an email leaves the other without a row |
| `InboundClients.RepetitionThenRename` | web/service/inbound.go:1675-1684 | from there an accepted rename of one of the two leaves the other without a row |
| `InboundClients.RowsTrackClients` | web/service/inbound.go:1065-1747 | over any run of edits that meet those conditions, failed ones included, the bijection holds |
| `InboundTable.Contains` | web/service/inbound.go:166-174 | membership ignoring case |
| `InboundTable.Table.GetAllEmails` | web/service/inbound.go:152-164 | exactly the emails of all client lists |
| `InboundTable.Table.CheckEmailsExist` | web/service/inbound.go:176-194 | empty exactly when no non-empty email of the list is in use or repeated, ignoring case; otherwise one of the list's emails |
| `InboundTable.Table.AddClientStat` | web/service/inbound.go:2258-2271 | fails exactly when the row exists |
| `InboundTable.Table.UpdateClientStat` | web/service/inbound.go:2273-2285 | renames a row keeping its counters; an error exactly when the new email is taken |
| `InboundTable.Table.AddInboundClient` | web/service/inbound.go:1122-1256 | succeeds exactly for a known inbound, a clean list and non-empty keys, with the new lists and rows; otherwise no effect |
| `InboundTable.Table.UpdateInboundClient` | web/service/inbound.go:1559-1747 | succeeds exactly for a known key, a non-empty new key and a free email; otherwise no effect |
| `InboundTable.Table.DelInboundClient` | web/service/inbound.go:1454-1557 | succeeds exactly when the key is found, a client remains and the row exists; otherwise no effect |
| `InboundTable.Table.UpdateInbound` | web/service/inbound.go:850-959 | the sync with the new protocol and list, the list dropped for a sidecar, or no effect when an added email is taken |
| `InboundTable.Table.CopyInboundClients` | web/service/inbound.go:1347-1452 | one table through the whole copy: the emails of all lists are occupied, each wanted client gets its subscription id written back and the next free email, and the addition succeeds with all of them or leaves the written-back table; after success the target's list has gained exactly one faithful copy per copied client |
| `CopiedClients.CopiedClientsAreCopies` | web/service/inbound.go:1303-1331 | for every table, after a successful copy every added client has the flag, quota, expiry, reset and subscription id of its source, the fresh credential in exactly the field its protocol authenticates with (password for Trojan and Shadowsocks, auth for Hysteria, id otherwise) and no credential of the source |
| `CopiedClients.CopiedAtExactly` | web/service/inbound.go:1393-1427 | the copies stand for exactly the copied clients, each once, in the order of the source's list |
| `CopiedClients.FoundByCredential` | web/service/inbound.go:1471-1480 | a client is looked up by the credential it authenticates with, by its email for Shadowsocks and the two user-name protocols, and for the second Hysteria by a field in which no copy puts its credential |
| `CopiedClients.LookupsAgreeExactly` | web/service/inbound.go:1258-1269 | the lookup for a write-back agrees with that of the edit it uses for every client exactly outside the mixed, HTTP and second Hysteria protocols |
| `InboundTable.SplitOff` | web/service/inbound.go:1481-1495 | removes every client with the key and leaves the email of the last of them |
| `InboundTable.Table.WriteBackClientSubID` | web/service/inbound.go:1271-1291 | saves the client under its key or, without a key or when the edit is refused, changes nothing |
| `PortForward.AddRules` | shared/portfwd/portfwd.go:160-185 | the loop over the protocols appends the TCP and the UDP rule of a spec to each list |
| `InboundTable.AllowedEmails` | web/service/inbound.go:1374-1379 | exactly the given emails, trimmed and in lower case |
| `CopiedEmails.CandidatesDiffer` | web/service/inbound.go:1333-1345 | candidates with different suffixes differ also when case is ignored |
| `CopiedEmails.Pigeonhole` | web/service/inbound.go:1333-1345 | n taken candidates need n occupied emails, which bounds the search |
| `CopiedEmails.NextAvailableCopiedEmail` | web/service/inbound.go:1333-1345 | terminates for every finite occupied set with the first free candidate, which there is only one of, and marks it occupied |
| `CopiedEmails.NextIsUnique` | web/service/inbound.go:1333-1345 | the search leaves no choice |
| `CopiedEmails.Occupied` | web/service/inbound.go:1381-1391 | exactly the lower-case forms of the non-empty emails without their surrounding quotes |
| `CopiedEmails.CopyKeeps` | web/service/inbound.go:1393-1427 | the loop changes no email of any list, each chosen email is named after a wanted client, and all differ, ignoring case, from each other and from the occupied ones |
| `CopiedEmails.WriteBackKeepsEmails` | web/service/inbound.go:1271-1291 | a subscription id is only ever written into a client with the same email |
| `CopiedEmails.RefusedByCollision` | web/service/inbound.go:1429-1446 | after the loop the addition is refused exactly for a sidecar's inbound, for a client of the second Hysteria, and when a chosen email equals, ignoring case, an existing quoted one |
| `CopiedEmails.CopyAddsFresh` | web/service/inbound.go:1381-1446 | a copy that succeeds appends to the target's list clients whose emails differ, ignoring case, from each other and from every email there was, and changes no other email |
| `CopiedEmails.OnlyQuotedSourcesCollide` | web/service/inbound.go:1386-1419 | a collision needs a wanted source client whose own email starts with a quote, so without one no copy is refused for its emails |
| `CopiedEmails.CopyKeepsTracked` | web/service/inbound.go:1347-1452 | rows and emails stay in bijection through a copy, refused or not |
| `CopyRefusal.CopyRefusedExactly` | web/service/inbound.go:1381-1446 | a copy is refused exactly when some client is copied to a sidecar's inbound or to one of the second Hysteria, or when the copy of a client whose trimmed email starts with a quote would get an email that exists; which clients are copied and the suffix of each quoted copy are told from the tables before the call |
| `CopyRefusal.WriteBackExactly` | web/service/inbound.go:1271-1291 | a write-back succeeds exactly when both keys are set and the first client with that key has the same email |
| `CopyRefusal.NextIsTold` | web/service/inbound.go:1333-1345 | the search for a quoted email ends at the suffix told from the quoted emails copied before it |
| `CopyRefusal.TookExactly` | web/service/inbound.go:1333-1345 | the suffixes that copies of one email have taken are those below the next one, but for the two forms that copies of related emails hold |
| `CopyRefusal.SuffixIsCount` | web/service/inbound.go:1333-1345 | when no copied email is the base of a copy of another, the suffix is the number of equal emails copied before |
| `CopyRefusal.RelatedMovesSuffix` | web/service/inbound.go:1333-1345 | two copies of `"x` push the first copy of `"x_1` to suffix 1, so the count alone is not the suffix |
| `CopyRefusal.CopiedFromTheStart` | web/service/inbound.go:1258-1291 | unless the source is of the second Hysteria, write-backs do not change which later write-backs succeed |
| `CopiedEmails.CopyCanBeRefused` | web/service/inbound.go:1386-1446 | a concrete table with quoted emails for which the search chooses an existing email and the copy is refused |
| `IpLimiter.MergeClientIps` | web/job/check_client_ip_job.go:233-250 | the two loops yield the merged map |
| `IpLimiter.MergeKeepsLatest` | web/job/check_client_ip_job.go:233-250 | with unique stored addresses the merge has exactly the addresses with a fresh entry, each with its latest fresh timestamp |
| `IpLimiter.RepeatedOldEntryLosesTheLatest` | web/job/check_client_ip_job.go:235-240 | with a repeated stored address the later entry wins even if it is older |
| `IpLimiter.PartitionLiveIps` | web/job/check_client_ip_job.go:267-281 | live and historical list the observed and the other addresses of the merge, each once, ascending, for any sort and map order |
| `IpLimiter.Job.UpdateInboundClientIps` | web/job/check_client_ip_job.go:348-461 | without a limit the observation is stored; without the ban log the record stays and nobody is banned; otherwise live addresses are split at the limit, banned ones are reported in order, kept and historical ones stored |
| `IpLimiter.OldestAreKept` | web/job/check_client_ip_job.go:416-438 | at most limit addresses are kept, exactly limit if any is banned, and none is newer than a banned one |
| `IpLimiter.StoredIsMergeMinusBanned` | web/job/check_client_ip_job.go:440-447 | the stored list is the merge without the banned addresses, each once |
| `IpLimiter.IdleTakesNoSlot` | web/job/check_client_ip_job.go:252-266 | somebody is banned exactly when more fresh addresses than the limit were seen in this scan; idle ones take no slot |
| `IpLimiter.StoredStayUnique` | web/job/check_client_ip_job.go:348-461 | over any run of scans, limited or not, stored addresses stay unique |
| `LogWriter.Writer.Write` | cloudflared/process.go:95-109 | emits the completed lines of buffer plus input and keeps the rest |
| `LogWriter.Writer.Flush` | cloudflared/process.go:111-119 | emits a non-empty rest and empties the buffer |
| `LogWriter.Writer.EmitLocked` | cloudflared/process.go:121-132 | keeps log, last line and public address those of the raw lines so far |
| `LogWriter.StatusTells` | cloudflared/process.go:121-132 | the last line shown is the last one logged, and the address shown is that of the last logged line in which one is found |
| `LogWriter.LogAppends` | cloudflared/process.go:121-132 | what is logged for two portions of lines is what is logged for each, and a single line is logged trimmed unless blank |
| `LogWriter.LinesRejoin` | cloudflared/process.go:99-107 | the lines, each with its newline, and the rest are the stream again |
| `LogWriter.LinesAreLines` | cloudflared/process.go:99-107 | no emitted line and no rest holds a newline |
| `LogWriter.SplitInPortions` | mtproto/process.go:126-140 | splitting a stream at once or in two portions gives the same lines and rest |
| `LogWriter.Relay` | cloudflared/process.go:183-203 | however a child's output is cut into writes, the lines emitted after the final flush are those of the whole stream |
| `LogWriter.ChunkingIsIrrelevant` | mtproto/process.go:126-152 | two chunkings of the same stream lead to the same lines, buffer and status |

## Left out

- Integer width: counters, timestamps and expiries are unbounded; 32-bit and 64-bit arithmetic is modelled where it
  decides something (`Ipam`, port numbers and settings that are printed and read back).
- Strings are sequences of runes and assumed to be valid UTF-8, except in `LogWriter`, which works on bytes.
- Database errors: operations on tables succeed, but for the unique email of the traffic rows.
- The sweep of orphaned sidecars at the first start, timeouts and signals of processes, and the discovery of a free port.
- Kernel sysctls, which PostUp sets and PostDown leaves set; the manual sync of NDP proxy entries and ndppd around a
  config reload, so statements about client runs are about rules only.
- Forwarding rules after a quota or expiry disabling or a renewal, which reapply the config without a diff.
- The row that an AmneziaWG client edit through JSON saves without its counter baseline.
- The native WireGuard service's tables: its generator and hooks are modelled, its row operations repeat those of the
  AmneziaWG service.
- The client IP records beside the traffic rows, the calls to the Xray API and the need-restart answers.
- The access log parser of the IP limiter, the text of its ban log and the forced disconnect: observations are given,
  one entry per address, and a client that is unknown or on a disabled inbound counts as one without a limit.
- What an update of an inbound checks and stores beside protocol, client list and rows: ports, tags, stream settings.
- The unconditional bulk resets and the deletion of depleted clients.
- The quota and renewal passes of the Xray inbounds.
- The flow and the timestamps of clients, which a copy sets anew, and the drawing of fresh credentials, which are given.
- The routing of a packet beyond the rules and items a hook installs: a packet is matched against rules one by one.
- In the statements about runs of a tunnel, its userspace mode, which reads the same file but runs no hooks.
- Enforcement.SecondPassIsIdle: requires a clock that stands after the epoch; before it, an activated lifetime could be negative again.
- IpLimiter.MergeKeepsLatest: requires unique stored addresses, which every run keeps (IpLimiter.StoredStayUnique).
- TunnelService.Service.ApplyServerConfig: the manual sync of proxy entries, ndppd and a reload that fails and restarts the interface are not modelled, because the statements about client runs are about rules and assume reloads that succeed.
