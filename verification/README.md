# Verification of the Nexplane agent's protocols and transformations

This project models the parts of the Nexplane agent and of its upgrade watchdog that have
protocol or transformation character, and proves what they do on all inputs and over all
runs. Each module follows one component:

- **Text, Sorting, Bits** hold the string, ordering and bit operations of the Go standard
  library that the components rely on, with the facts about them.
- **Frame, Allowlist, Multiplexer, Delivery, Closing, Replies, Progress, Reconnect, Supervisor** are
  the reverse tunnel: the frame codec, the allowlist language, the interleaving of reader, writer and
  one opener goroutine per stream over a shared map and a dropping queue with its two directions of
  data, how connections end, what the reader answers, that nothing gets stuck, the reconnect loop, and
  the reconciler that keeps one tunnel matching the polled configuration.
- **DeadMan, Disarming** are the dead man's switch of an IP change: write-ahead record, probing
  goroutine, restart recovery, with a crash allowed anywhere, also in the middle of writing the record,
  what all that is worth to a change that has been applied, and what a live switch can still do.
- **EnvFile, Watchdog, Episodes** are the upgrade watchdog: the rewrite of the env file, cutover and
  rollback driven by the sentinel, with a crash between any two effects and the backend writing
  the sentinel at any time, and the scripts of effects that every run follows.
- **Iptables, NetworkPolicy, Promotion, Isolation** give filter tables a first-match meaning and
  say what the generated command sequences do to every packet.
- **ManagedBlock, Credentials, ConfigFiles, Drift, DbAdmin** are the text edits with their undo
  and their round trips.
- **Poller** is the service loop: backoff in 64-bit arithmetic, and one result for each job.

`dafny verify dfyconfig.toml` checks everything.

Several properties one would expect turn out to hold only under a condition. Each of them is
stated as an equivalence with that condition, or with a concrete run beside it:

- A managed block written twice is the block written once only for a file that is clean (no marker, or
  the begin marker before the end marker) and a first block without the end marker.
- A new image tag takes effect only if the env file is empty, ends a line, or has a tag line;
  otherwise the unterminated last line swallows it. So `cutover_complete` can be written over
  an env file that does not name the target version, and a crash inside a rewrite can
  bring that about from a good file.
- The watchdog writes back the copy of the sentinel it polled. That is faithful to the file it
  replaces only if nobody wrote it since; the backend's `upgrade_complete`
  (backend/app/services/upgrade_verify.py:56-88) can be overwritten.
- A peer's CLOSE closes a connection only from its registration on; one that comes while the stream is
  still being dialled is lost, and the connection stays open.
- A change stays covered by the dead man's switch only if no probe succeeded and no rollback was
  called before it was applied, and no restart is interrupted while it rewrites the record. All
  three ways to lose the cover are shown as runs.
- Promotion makes a network profile decide only where the rules from before decide alike, or leave
  a packet open that the profile was enforced for or does not hold. So promoting a profile that was
  only audited drops every packet, and promoting an enforced one changes nothing. Enforcing
  twice keeps the first profile. The undo commands restore the table only if the chain held no rules
  and was there only with a jump to it. Going back to audit stops enforcing only for packets which the
  chain without its first DROP leaves open or decides like the rest of OUTPUT; after enforcing
  once the profile's packets keep being accepted, after enforcing and promoting the whole profile
  keeps being enforced.
- Isolation keeps its allowed packets flowing throughout only if the OUTPUT policy was ACCEPT,
  and nothing undoes the IPv6 commands that worked.
- A password rotation hides a line that only its old value marked from all later rotations.
- Sudoers remediation converges only if the drop-ins hold no entries.
- The poll backoff panics for durations from 2^62 ns on.

The documentation of `ParseAllowlist` and the code agree. The comment on
`ReplaceCredentialInContent` (agent/commands/credrotation/util.go:11-12) speaks of replacing the old
password; the code replaces everything after the first equals sign of a marked line, and the model
follows the code. The comment on the promotion loop (agent/commands/ebpf/ebpf_promote_linux.go:37)
says that LOG rules are replaced with DROP; the code deletes them and appends one DROP. One of the
lines that `restoreSudoers` writes holds a backslash and a `t` instead of a tab; the model has it
as it is.

## Model

| member | source | states |
|---|---|---|
| Frame.Encode | agent/tunnel/frame.go:20-26 | the buffer filled in place is exactly the four big-endian id bytes, the type and the payload |
| Frame.DecodeOfWire | agent/tunnel/frame.go:29-37 | decoding an encoded message gives the message back, for every 32-bit id, type and payload |
| Frame.DecodeIsTheInverse | agent/tunnel/frame.go:29-37 | every accepted byte string is the encoding of what it decodes to; what is rejected is shorter than 5 bytes and encodes nothing |
| Frame.ParseOpenExactly | agent/tunnel/frame.go:40-53 | parsing yields a host and port if and only if the text is that host, a colon and a colon-free numeral of that port in 1..65535 |
| Frame.ParseOpenOfPrinted | agent/tunnel/frame.go:40-53 | every host, colons included, and every port from 1 to 65535 survive printing and parsing |
| Bits.SameUnderMaskIsInBlock | agent/tunnel/allowlist.go:97 | comparing addresses byte by byte under a prefix mask decides membership in an interval of addresses, as CIDR blocks are defined in section 3.1 of RFC 4632 |
| Allowlist.NetContainsExactly | agent/tunnel/allowlist.go:93-99 | a parsed network contains an address if and only if the block the text denotes does, IPv4-mapped networks and addresses included |
| Allowlist.ParseEntryExactly | agent/tunnel/allowlist.go:30-73 | an entry parses if and only if it is a host part and a port part of the documented forms |
| Allowlist.RuleMatchesExactly | agent/tunnel/allowlist.go:84-116 | a rule admits a host and port if and only if the entry it came from denotes them |
| Allowlist.ParseAllowlist | agent/tunnel/allowlist.go:28-78 | the loop returns the rules of the list, or an error as soon as one entry has none |
| Allowlist.ParsesExactly | agent/tunnel/allowlist.go:28-78 | a list parses, to one rule for each entry in order, if and only if every entry is well formed |
| Allowlist.IsAllowed | agent/tunnel/allowlist.go:81-118 | the loop with its early exits answers whether some rule matches |
| Allowlist.AllowedExactly | agent/tunnel/allowlist.go:81-118 | a destination is allowed if and only if some entry of the parsed list denotes it |
| Allowlist.ConcatIsUnion | agent/tunnel/allowlist.go:81-118 | concatenating lists allows the union; the empty list denies everything |
| Multiplexer.WireIsInOrder | agent/tunnel/tunnel.go:122-140 | in every interleaving the OPEN_OK and DATA frames offered for a stream are its opener's, OPEN_OK first; those on the wire are a subsequence in order; with nothing dropped they are a prefix and their payloads a prefix of the bytes read |
| Multiplexer.ConnectionsAreConserved | agent/tunnel/tunnel.go:169-181 | in every interleaving a dialled connection is in exactly one place: with its opener, registered under its own id, on its way to being closed, or closed; it is closed at most once (which of these, and when, is `Closing.RegisteredExactly`) |
| Multiplexer.OpensAreAnsweredOnce | agent/tunnel/tunnel.go:216-237 | in every interleaving an OPEN is answered by exactly one OPEN_OK or OPEN_ERR, once its dial has returned or it was refused |
| Multiplexer.DialsAreAllowed | agent/tunnel/tunnel.go:223-229 | in every interleaving each dial was asked for by a received OPEN frame, its target is denoted by an allowlist entry, and no stream dials twice |
| Multiplexer.PipelineStep | agent/tunnel/tunnel.go:123-140 | every step keeps the queue's account: the frames accepted are those written, then the one being written, then those waiting, at most 256 |
| Multiplexer.ScriptStep | agent/tunnel/tunnel.go:228-254 | every step keeps each opener at a point of its script: answer, then data in reading order, then CLOSE |
| Multiplexer.ConservedStep | agent/tunnel/tunnel.go:228-270 | every step keeps each connection in exactly one place; that a CLOSE takes it out is `Closing.PeerCloseCloses` |
| Closing.RegisteredExactly | agent/tunnel/tunnel.go:173-181 | in every interleaving, whenever the reader waits for a frame: a connection that was registered still is if and only if no CLOSE for its stream is among the frames since, no write to it failed, and its opener has not left |
| Closing.PeerCloseCloses | agent/tunnel/tunnel.go:268-269 | once a CLOSE received since the registration has been dealt with, the connection is not registered, and closed or held by its own opener that is about to close it |
| Closing.TrackedStep | agent/tunnel/tunnel.go:228-270 | every step keeps each connection's account of what has ended it |
| Closing.EarlyCloseIsLost | agent/tunnel/tunnel.go:228-236 | a run in which a CLOSE comes before the dial returns: the connection is registered afterwards and open |
| Replies.OpensAreDecidedExactly | agent/tunnel/tunnel.go:217-227 | in every interleaving exactly the received OPENs with an allowed target are dialled, and the reader refuses exactly the others, with "invalid OPEN payload" or "denied" |
| Replies.FailedWritesAreAnswered | agent/tunnel/tunnel.go:263-266 | in every interleaving the reader has offered one CLOSE for each failed write to a stream's connection and no other, but for the one it is about to answer |
| Progress.ReaderReturns | agent/tunnel/tunnel.go:196-270 | from every state the reader can return to its next frame by steps of its own |
| Progress.OpenerEnds | agent/tunnel/tunnel.go:228-254 | from every state each opener can end by steps of its own, without another read once it has read the end |
| Progress.EofEnds | agent/tunnel/tunnel.go:241-252 | the end of a connection, with or without bytes before it, can be read and leads to the opener's end |
| Progress.DoneHasClosed | agent/tunnel/tunnel.go:247-251 | in every interleaving an opener that is done has offered all it read and then its CLOSE, and its connection is out of the table, closed or being closed by the reader |
| Progress.WriterEmpties | agent/tunnel/tunnel.go:123-132 | from every state with a working websocket the writer can bring the whole queue onto the wire, in order |
| Progress.FirstFramesAreKept | agent/tunnel/tunnel.go:134-140 | in every interleaving none of the first 256 frames is dropped |
| Delivery.DataReachesItsConnection | agent/tunnel/tunnel.go:256-266 | in every interleaving the bytes written to a connection are, in order and without gaps, a prefix of the DATA received for its own stream since it was registered; between two frames all of it while it stays registered; nothing before |
| Delivery.DeliveryStep | agent/tunnel/tunnel.go:256-266 | every step keeps each connection's account of bytes written, being written and due |
| Reconnect.Run | agent/tunnel/tunnel.go:40-94 | the loop's connections and waits are those of the closed form; a bad allowlist makes no connection |
| Reconnect.WaitsAre | agent/tunnel/tunnel.go:48-92 | the n-th wait is min(2^n, 30) seconds, however the connections before it ended |
| Reconnect.WaitSettles | agent/tunnel/tunnel.go:89-92 | all waits but the first five, and only those, are the longest |
| Reconnect.ConnectionsInOrder | agent/tunnel/tunnel.go:54-74 | between two waits there are one or two connections, the second only with the long-lived secret after a first one with another |
| Reconnect.SecretsUsed | agent/tunnel/tunnel.go:54-74 | in every run each turn connects with the token if the fetcher gave one, then with the long-lived secret if and only if the token is another and its connection failed; without a token just with the long-lived one |
| Supervisor.SameAllowlist | agent/tunnelsupervisor/supervisor.go:42-52 | the loop decides equality of the two lists |
| Supervisor.Supervisor.Apply | agent/tunnelsupervisor/supervisor.go:55-75 | afterwards a tunnel runs if and only if it is enabled and the list is not empty, on a copy of exactly that list, and events happened only if something changed |
| Supervisor.Supervisor.StopAll | agent/tunnelsupervisor/supervisor.go:77-82 | the running tunnel, if any, is cancelled |
| Supervisor.RunWith | agent/tunnelsupervisor/supervisor.go:102-122 | over any polls, failed ones included, the events are those of the normalised configurations with repeats removed; what they do to the live tunnel is `TunnelFollowsRun` |
| Supervisor.RunOnOneList | agent/tunnelsupervisor/supervisor.go:66-70 | when the caller keeps one list and overwrites it between polls, the events are still those of the contents at each poll: no later change of the list touches the comparison |
| Supervisor.TunnelFollowsPolls | agent/tunnelsupervisor/supervisor.go:36-40 | for every history, at each poll: a context is live if and only if the last successful poll was enabled with a non-empty list, and it carries that list; the end cancels it and nothing else |
| Supervisor.TunnelFollowsRun | agent/tunnelsupervisor/supervisor.go:102-122 | the same of the events of `RunWith`, the initial configuration counting as a poll |
| Supervisor.AtMostOneTunnel | agent/tunnelsupervisor/supervisor.go:102-122 | after every prefix of those events at most one started context is uncancelled, none at the end, and no tunnel starts with an empty list |
| DeadMan.WriteAhead | agent/commands/changip/changip_linux.go:188-207 | over all crashes and restarts the change is not applied before the switch is armed, and while nothing is decided the record is on disk, readable with the armed deadline unless it is being rewritten or that was interrupted |
| DeadMan.DeadlineAndCalls | agent/commands/changip/changip_deadman.go:99-114 | the recorded deadline is the armed one, 10 to 300 seconds after the start; no rollback before it or after the removal; calls number the crashes between call and removal, plus at most one |
| DeadMan.DeadlineNeverMoves | agent/commands/changip/changip_deadman.go:146-158 | once armed the deadline never changes in any run |
| DeadMan.SwitchStaysLive | agent/commands/changip/changip_deadman.go:65-115 | a running agent has a live switch as long as nothing is decided, exactly unless reading or rewriting the record failed, and expiry is enabled at the deadline; that a live switch goes on probing is `Disarming.TickProbes` |
| DeadMan.RollbackStaysPossible | agent/commands/changip/changip_deadman.go:132-154 | while the record is readable, restarting after the deadline calls the rollback without any probe |
| DeadMan.InterruptedRewriteIsFinal | agent/commands/changip/changip_deadman.go:141-144 | after an interrupted rewrite of the record the rollback is never called again |
| DeadMan.CoveredExactly | agent/commands/changip/changip_linux.go:197-211 | in every run an applied change is on record with the armed deadline, or followed by a successful probe or a rollback call, if and only if no decision older than the change has removed the record and no rewrite was interrupted before the change was answered |
| DeadMan.StaysCoveredExactly | agent/commands/changip/changip_linux.go:198-204 | when the change is applied: it is covered in every future without an interrupted rewrite if and only if no probe has succeeded and no rollback was called before |
| DeadMan.LateChangeStands | agent/commands/changip/changip_deadman.go:103-106 | a reachable run in which the change is applied after its rollback and stands without a record |
| DeadMan.EarlyProbeDisarms | agent/commands/changip/changip_deadman.go:92-97 | a reachable run in which the first probe disarms the switch before the change is applied |
| DeadMan.InterruptedRewriteHappens | agent/commands/changip/changip_deadman.go:59-61 | a reachable run in which an applied change loses its record without any successful probe |
| Disarming.DisarmStaysPossible | agent/commands/changip/changip_deadman.go:92-112 | from every reachable state with a live switch a run without crash, restart or waiting reaches a successful probe and then an absent record, with no further rollback call |
| Disarming.TickProbes | agent/commands/changip/changip_deadman.go:107-112 | each tick of a selecting switch leads to a probe: a bad answer leaves everything as before the tick, a good one disarms |
| Disarming.ExpiryRollsBack | agent/commands/changip/changip_deadman.go:103-106 | from every reachable state with a live switch, waiting without an answer until the deadline leads to one more rollback call and the removal of the record, without a restart |
| Disarming.DeadlineIsAsAsked | agent/commands/changip/changip_linux.go:94-100 | in every run the armed deadline is as many seconds after the start of the job as it asked for, or the nearer bound of 10 and 300 |
| Disarming.JobCanArm | agent/commands/changip/changip_linux.go:188-207 | a job can write its record, arm its switch and apply its change, with that deadline |
| Disarming.RestartResumes | agent/commands/changip/changip_deadman.go:146-158 | a restart up to the deadline can rewrite the record and resume the switch with the deadline on disk |
| EnvFile.UpdateImageTag | watchdog/main.py:63-80 | the loop writes the new text: every tag line replaced, or one appended |
| EnvFile.UpdateTakesEffectExactly | watchdog/main.py:63-80 | a reader finds the new tag if and only if the old text was empty, ended a line or had a tag line |
| EnvFile.UpdateKeepsOtherLines | watchdog/main.py:69-80 | on such a text all other lines survive in order, and the next update takes effect, too |
| EnvFile.UpdateTwice | watchdog/main.py:63-80 | on such a text the last of two updates wins |
| EnvFile.UpdatedReadsBack | watchdog/main.py:69-80 | reading the written text back in text mode translates nothing |
| Watchdog.CompleteMeans | watchdog/main.py:91-109 | in every run with crashes a cutover marked complete had a successful health check after its restart, and the env file names the target version if and only if the file the cutover read could take the update |
| Watchdog.RolledBackMeans | watchdog/main.py:112-169 | what a mark of rollback_complete is worth: the env file names the part of the previous tag after its last colon if and only if the file the rollback read could take the update; that the rollback is done is `Episodes.TimeoutRollsBack` |
| Episodes.EpisodesAreScripted | watchdog/main.py:91-185 | in every run the effects are those of whole upgrades, whole rollbacks, and episodes cut short by the watchdog's death; a watchdog at work is in the middle of one that began with its polled copy, and one that sleeps or is down has left nothing unfinished |
| Episodes.TimeoutRollsBack | watchdog/main.py:108-169 | a health wait that timed out is followed, unless the watchdog dies, by: backend stopped, previous tag written if there is one, database restored, backend up, sentinel marked, in this order |
| Episodes.EpisodeCanEnd | watchdog/main.py:172-185 | from every state with a cutover pending or under way a run without deaths and other writers reaches the mark: of either kind while the health check is open, of the remaining kind afterwards |
| Watchdog.RewritesArePolledCopies | watchdog/main.py:172-185 | in every run, whatever others write and when, each rewrite is the pending copy polled with its two own fields changed, and replaces that copy or the last file others wrote since the poll |
| Watchdog.RewriteIsFaithfulExactly | watchdog/main.py:176-181 | a rewrite starts from a pending file and keeps its fields if and only if nobody wrote the file since the poll, or the last to do so left it pending with the polled fields but for the watchdog's own |
| Watchdog.UpgradeIsOverwritten | backend/app/services/upgrade_verify.py:56-88 | a reachable run in which the restarted backend marks the upgrade complete and the watchdog's older copy replaces that |
| Watchdog.TagOnlyIsAfterLastColon | watchdog/main.py:125 | the tag restored is the text after the last colon of the previous one, the whole when it has none |
| Watchdog.SentinelTellsTheTruth | watchdog/main.py:172-185 | from an env file fit for updates, with no rewrite interrupted, both final states name the tag the env file has |
| Watchdog.CompletedAfterCut | watchdog/main.py:63-80 | a run that dies after flushing any part of a rewrite and completes on restart tells the truth if and only if that part is fit for updates |
| Watchdog.InterruptedWriteLies | watchdog/main.py:176-181 | a reachable run marked complete whose env file does not name the target version |
| Iptables.WalkAppend | agent/commands/ebpf/ebpf_network_policy_linux.go:63-68 | appended rules meet exactly the packets the rules before them let through |
| NetworkPolicy.Host.Compile | agent/commands/ebpf/ebpf_network_policy_linux.go:35-74 | the loop extends the chain by the compiled profile, and in enforce mode by a DROP, and counts the flows it did not pass over |
| NetworkPolicy.Host.Configure | agent/commands/ebpf/ebpf_network_policy_linux.go:19-88 | an unknown mode changes nothing; otherwise the table is the configured one, the mode is on record and the snapshot is the old table |
| NetworkPolicy.Host.Rollback | agent/commands/ebpf/ebpf_network_policy_linux.go:90-109 | the saved table is back, or without one the three undo commands are done; the mode is cleared |
| NetworkPolicy.AuditRunsChangeNothing | agent/commands/ebpf/ebpf_network_policy_linux.go:63-76 | any number of audit runs on a chain that only logs leaves every verdict of every other chain unchanged, whatever those hold |
| NetworkPolicy.AuditLogsExactly | agent/commands/ebpf/ebpf_network_policy_linux.go:63-76 | an audit run puts the chain in front of OUTPUT, and a packet is logged there if and only if it was before or is in the profile |
| NetworkPolicy.SkippedExactly | agent/commands/ebpf/ebpf_network_policy_linux.go:43-62 | the loop passes over exactly the flows that name no protocol in either field, or no port, or the port 0 as a number or text |
| NetworkPolicy.AddedExactly | agent/commands/ebpf/ebpf_network_policy_linux.go:60-69 | the number reported is that of the other flows |
| NetworkPolicy.EnforceMeansProfile | agent/commands/ebpf/ebpf_network_policy_linux.go:66-76 | one enforce run on such a chain accepts exactly the packets of the profile and drops the rest, whatever OUTPUT held and however iptables reads ports and protocols |
| NetworkPolicy.EnforceAcceptsPairs | agent/commands/ebpf/ebpf_network_policy_linux.go:60-76 | for a profile of tcp and udp flows with plain ports it accepts exactly their protocol and port pairs, as the fields of the flows say them |
| NetworkPolicy.EnforceMeansProfileExactly | agent/commands/ebpf/ebpf_network_policy_linux.go:66-76 | on any plain chain a packet is decided as by the profile if and only if the old rules leave it open or decide alike |
| NetworkPolicy.SecondEnforceIsIgnored | agent/commands/ebpf/ebpf_network_policy_linux.go:72-76 | a second enforce run with another profile changes no decision of the first |
| NetworkPolicy.UndoRestoresExactly | agent/commands/ebpf/ebpf_network_policy_linux.go:93-95 | for every table, without a snapshot the undo commands restore it if and only if the chain held no rules and existed exactly if some rule jumped to it |
| NetworkPolicy.NumberedFlow | agent/commands/ebpf/ebpf_network_policy_linux.go:51-62 | a numeric tcp or udp port in 1..65535 is read back as itself, and port 0 adds no rule |
| Promotion.SweepFilters | agent/commands/ebpf/ebpf_promote_linux.go:38-48 | deleting by the numbers of one listing, last line first, removes exactly the rules whose line shows LOG and keeps the others in order |
| Promotion.DeleteLogged | agent/commands/ebpf/ebpf_promote_linux.go:41-48 | the reverse loop has the effect of all lines, last first |
| Promotion.Promote | agent/commands/ebpf/ebpf_promote_linux.go:13-67 | the table, the mode on record, the prior mode and the snapshot after a promotion, and the error without a policy type |
| Promotion.Rollback | agent/commands/ebpf/ebpf_promote_linux.go:69-87 | the snapshot and the prior mode are put back |
| Promotion.PromotedExactly | agent/commands/ebpf/ebpf_promote_linux.go:36-49 | promotion yields the chain without its LOG rules, and a DROP, if and only if exactly the LOG rules show the word |
| Promotion.PromotedVerdict | agent/commands/ebpf/ebpf_promote_linux.go:36-49 | for every chain of deciding and logging rules, a promotion accepts a packet if and only if the rules of the chain accepted it, and drops it otherwise |
| Promotion.PromotionKeepsExactly | agent/commands/ebpf/ebpf_promote_linux.go:36-49 | for every such chain a packet's verdict is unchanged if and only if the chain decides about it or the rest of OUTPUT drops it |
| Promotion.PromotionEnforcesExactly | agent/commands/ebpf/ebpf_promote_linux.go:36-49 | configured in either mode on any such chain and promoted, the profile decides about a packet if and only if the rules from before decide alike, or leave it open and the profile was enforced or does not hold it |
| Promotion.PromotionDropsEverything | agent/commands/ebpf/ebpf_promote_linux.go:36-49 | on a chain that only logged, promoting an audited profile drops every packet that leaves, the profile's included |
| Promotion.PromotionKeepsEnforced | agent/commands/ebpf/ebpf_promote_linux.go:36-49 | whatever deciding and logging rules the chain held before, promoting an enforced profile changes no verdict; on a chain that only logged, those are exactly the profile's |
| Promotion.DemotedVerdict | agent/commands/ebpf/ebpf_promote_linux.go:50-54 | after going back to audit the chain without its first DROP decides, and where it does not, the rest of OUTPUT as if the chain were empty |
| Promotion.DemotionStopsExactly | agent/commands/ebpf/ebpf_promote_linux.go:50-54 | for every chain of deciding and logging rules, a packet is treated as with the chain emptied if and only if the chain without its first DROP leaves it open or decides like the rest of OUTPUT |
| Promotion.DemotionUndoesPromotionExactly | agent/commands/ebpf/ebpf_promote_linux.go:36-54 | for every chain of deciding and logging rules, promoting and going back to audit keeps a packet's verdict if and only if the chain held no DROP for all, or the chain without its first one accepts the packet exactly when the whole chain does |
| Promotion.DemotionOfEnforced | agent/commands/ebpf/ebpf_promote_linux.go:50-54 | on a chain that only logged, after enforcing once and going back to audit, the profile's packets are accepted whatever OUTPUT held, all others are decided as before the policy |
| Promotion.DemotionLogs | agent/commands/ebpf/ebpf_promote_linux.go:50-54 | back in audit the chain ends in a rule that logs every packet that gets there |
| Promotion.DemotionKeepsEnforcing | agent/commands/ebpf/ebpf_promote_linux.go:50-54 | on a chain that only logged, after enforcing, promoting and going back to audit the profile is still enforced |
| Promotion.DemotionOfAudited | agent/commands/ebpf/ebpf_promote_linux.go:50-54 | on a chain that only logged, after auditing, promoting and going back to audit every verdict is as before the policy |
| Promotion.ModeRestoredExactly | agent/commands/ebpf/ebpf_promote_linux.go:81-84 | rollback brings back the mode as it is read, and the mode file itself if and only if it held a trimmed mode |
| Isolation.Host.Isolate | agent/commands/isolation/isolation_linux.go:15-66 | which errors occur, that only a failing iptables command ends the run, and the tables and the saved state it leaves |
| Isolation.Host.Restore | agent/commands/isolation/isolation_linux.go:68-75 | the saved IPv4 table is back unless restoring fails |
| Isolation.IsolationExactly | agent/commands/isolation/isolation_linux.go:39-46 | after success IPv4 lets out exactly established connections, tcp/22 to the management network and tcp/443 to the control plane, whatever was there before, and forwards nothing |
| Isolation.NeverCutOffExactly | agent/commands/isolation/isolation_linux.go:39-46 | from the first flush on no allowed packet is dropped at any point of the run if and only if the OUTPUT policy was ACCEPT |
| Isolation.AbortedRunIsOpen | agent/commands/isolation/isolation_linux.go:55-62 | a run that ends early leaves allowed packets flowing, from such a policy |
| Isolation.Ipv6Exactly | agent/commands/isolation/isolation_linux.go:48-52 | with ip6tables at work IPv6 lets out exactly established connections and forwards nothing |
| Isolation.Ipv6MayStayOpen | agent/commands/isolation/isolation_linux.go:57-60 | without ip6tables every IPv6 verdict stays as it was |
| Isolation.RestoreExactly | agent/commands/isolation/isolation_linux.go:68-75 | whichever ip6tables commands work, restoring the saved IPv4 table restores the firewall if and only if those had found IPv6 as they leave it |
| ManagedBlock.InsertTwiceExactly | agent/commands/linuxauth/pam_linux.go:218-230 | inserting twice is inserting the second block alone if and only if the content is clean and the first block holds no end marker |
| ManagedBlock.InsertKeepsOutside | agent/commands/linuxauth/pam_linux.go:218-230 | for such contents and blocks the block reads back and the text around it is unchanged |
| ManagedBlock.InsertOfOwnBlock | agent/commands/linuxauth/pam_linux.go:223-225 | writing back the block a file holds changes nothing |
| ManagedBlock.MisorderedFileGrows | agent/commands/linuxauth/pam_linux.go:223-225 | a file with an end marker before the begin marker grows at a repeated write |
| ConfigFiles.FileSystem.BackupConfigFiles | agent/commands/credrotation/db.go:126-140 | the loop's files and joined names, or the files up to the failing path |
| ConfigFiles.FileSystem.UpdateConfigFiles | agent/commands/credrotation/db.go:142-154 | the loop's outcome on the files is that of `Updated`, which is characterised by `UpdateRotatesExactly` |
| ConfigFiles.FileSystem.RestoreConfigFiles | agent/commands/credrotation/db.go:156-174 | the loop copies each backup to the path before its last marker and stops at the first failure |
| ConfigFiles.OriginalOfDest | agent/commands/credrotation/db.go:158-164 | trimming and the last marker recover the path from its backup's name, also when the path itself holds the marker |
| ConfigFiles.BackupsAreDistinct | agent/commands/credrotation/db.go:129 | two backups have the same name only if path and time agree |
| ConfigFiles.NamesReadBack | agent/commands/credrotation/db.go:84-87 | splitting the joined names gives the names back if and only if there are any |
| ConfigFiles.BackupHolds | agent/commands/credrotation/db.go:126-140 | a finished backup holds the contents of every path and changes no other file |
| ConfigFiles.UpdateRotatesExactly | agent/commands/credrotation/db.go:142-154 | an update of distinct paths rotates exactly the files before the first path that is missing or not writable, line by line, and leaves all others as they were; it succeeds if and only if there is no such path |
| ConfigFiles.BackupSucceedsExactly | agent/commands/credrotation/db.go:126-140 | a backup reaches its end if and only if every path has a file by then and every copy can be written |
| ConfigFiles.RestoreSucceedsExactly | agent/commands/credrotation/db.go:156-174 | a restore reaches its end if and only if every name leads back to a writable path and has a file by then |
| ConfigFiles.OriginalExactly | agent/commands/credrotation/db.go:158-163 | a name leads back to what stands before its last marker, and nowhere if and only if it has none |
| ConfigFiles.RestoreUndoesUpdate | agent/commands/credrotation/db.go:156-174 | after a backup and any change of the listed files, restoring from the joined names succeeds if and only if there are any, and every file but the backups is as before |
| ConfigFiles.RestoreUndoesRotation | agent/commands/credrotation/db.go:142-174 | backup, an update stopped anywhere, and restore is the identity on every listed path |
| Credentials.ReplaceCredentialInContent | agent/commands/credrotation/util.go:13-31 | the scanner loop builds the rotated text |
| Credentials.RotatedIs | agent/commands/credrotation/util.go:13-31 | rotation keeps the number and order of lines: one with an equals sign that holds password, pass or pwd in any case becomes its key, an equals sign and the new password, every other stays as it is without its carriage return |
| Credentials.RotateTwiceExactly | agent/commands/credrotation/util.go:13-31 | rotating twice is rotating once if and only if each line stays marked by its key or by the first password, or is not touched |
| Credentials.RotationHidesLine | agent/commands/credrotation/util.go:20-26 | a line marked by its value alone is rotated once and never again |
| Credentials.RotationHidesALine | agent/commands/credrotation/util.go:20-26 | such a line |
| Credentials.ReplaceEnvVarInContent | agent/commands/credrotation/util.go:35-47 | the scanner loop builds the text with the variable set |
| Credentials.AssignedIs | agent/commands/credrotation/util.go:35-47 | setting a variable keeps the number and order of lines: those that set it get the new value, the others stay |
| Credentials.AssignedReadsBack | agent/commands/credrotation/util.go:35-47 | afterwards every line that sets the variable gives the new value, and there is one if and only if there was one before |
| Credentials.AssignTwiceExactly | agent/commands/credrotation/util.go:35-47 | setting a variable twice is setting it once if and only if no other line keeps a carriage return |
| Drift.ParseSSH | agent/commands/drift/capture_linux.go:55-67 | the loop builds the map of the settings, the last of equal keys winning |
| Drift.PrintSSH | agent/commands/drift/restore_linux.go:48-57 | from any order of the keys the text lists the settings sorted |
| Drift.SSHReadsBackExactly | agent/commands/drift/restore_linux.go:47-57 | a state is captured from its own printed file if and only if its keys and values are of the captured form |
| Drift.SSHConverges | agent/commands/drift/capture_linux.go:50-68 | for every sshd_config text, capturing what was restored from its capture gives that capture |
| Drift.SSHPrintsOnce | agent/commands/drift/restore_linux.go:48-57 | the iteration order of the map leaves no trace in the file |
| Drift.CapturedExactly | agent/commands/drift/capture_linux.go:55-67 | the capture holds a setting if and only if some line gives it, with blanks around the line and its value, and no later line gives its key |
| Drift.EntriesExactly | agent/commands/drift/capture_linux.go:78-86 | of every line between newlines the text between its blanks is an entry unless it is empty or begins with a number sign or with Defaults, in the order of the lines |
| Drift.CapturedFromFiles | agent/commands/drift/capture_linux.go:88-103 | the capture lists, sorted, what sudoers or one of the drop-ins has an entry for |
| Drift.CollectEntries | agent/commands/drift/capture_linux.go:70-103 | the loops collect the entries of sudoers and of the drop-ins, sorted |
| Drift.Host.RestoreSudoers | agent/commands/drift/restore_linux.go:67-108 | the new file is written if visudo accepts it, and nothing otherwise |
| Drift.SudoersReadBackExactly | agent/commands/drift/restore_linux.go:70-83 | without drop-ins a list of entries is captured from its own file if and only if all have the captured form; the header lines are passed over |
| Drift.SudoersConvergesExactly | agent/commands/drift/capture_linux.go:70-104 | capturing what was restored from a capture gives that capture if and only if the drop-ins hold no entries |
| Sorting.SortSorts | agent/commands/drift/capture_linux.go:102 | sorting orders a list and keeps its elements |
| DbAdmin.ParseGrant | agent/commands/dbadmin/dbadmin.go:78-99 | the parser with its loop returns the grant or the error of its description |
| DbAdmin.ParsedIsProper | agent/commands/dbadmin/dbadmin.go:78-99 | whatever parses has trimmed parts without the separators that would follow them, and a non-blank privilege |
| DbAdmin.SourceParses | agent/commands/dbadmin/dbadmin.go:78-99 | a schema, a table and privileges written with any blanks around them are parsed to these names and to the privileges that are more than blanks, in order; without such a privilege to the error for that |
| DbAdmin.GrantsExactly | agent/commands/dbadmin/dbadmin.go:78-99 | a string without a colon, or without a dot before its first colon, gets the error for that; every other one is so written and parsed accordingly |
| DbAdmin.GrantRoundTripExactly | agent/commands/dbadmin/dbadmin.go:76-99 | printing in the documented form and parsing is the identity if and only if the parts are such |
| DbAdmin.GrantNormalForm | agent/commands/dbadmin/dbadmin.go:78-99 | every grant string parses to the same grant as the printed form of what it parses to |
| DbAdmin.PgIdentExactly | agent/commands/dbadmin/dbadmin.go:116-118 | by the rule of section 4.1.1 of the PostgreSQL documentation a quoted name followed by any text is read as the name and that text, if and only if the text does not begin with a double quote |
| DbAdmin.GrantStatementReads | agent/commands/dbadmin/dbadmin_postgres.go:240-241 | the three names of a GRANT statement are read as the names given, and the text between them as it stands |
| Poller.ProcessJob | agent/poller/poller.go:71-96 | an observer who was handed the job sees it settled: nothing dispatched without a verified signature, and exactly one result, its own |
| Poller.RunService | agent/poller/poller.go:31-69 | the log of the loop's turns, and the poll at which the random source panics, for all 64-bit durations |
| Poller.BackoffIs | agent/poller/poller.go:49-53 | the backoff before a poll is the interval doubled for each consecutive error and capped, without overflow |
| Poller.DelaysExactly | agent/poller/poller.go:45-48 | the sleeps a failed poll can log after k consecutive errors are exactly those from 0 to min(interval·2^k, maximum), and to the interval for k = 0 |
| Poller.SleepsAre | agent/poller/poller.go:43-63 | in every run each turn of the log sleeps once within the bound after an error, once for the interval without a job, and not at all for a job |
| Poller.NeverPanicsExactly | agent/poller/poller.go:46-53 | no run panics if and only if the interval is 0 and the maximum not negative, or both are below 2^62 |
| Poller.JobsAreSettled | agent/poller/poller.go:60-96 | in every run each job received is dispatched only if verified, at most once, and has exactly one result posted, its own, before the next poll |

## Left out

- Multiplexer: cleanup and what openers do after it began, reused stream ids (OPEN frames are assumed to carry distinct ids), heartbeat, pings and read deadlines. The goroutines are a step system on values, one step for each access to shared state, because the properties are about interleavings.
- DeadMan: the body of the rollback (only its call is an event), two switches on one record file, the returned cancel function, failing removals. The switch is a step system on values because a crash may fall between any two statements.
- Watchdog: docker, pg_restore and the health endpoint are outcomes; sentinel values that are not strings; edits of the env file by others (those of the sentinel are modelled). An exception from `docker compose up` in a cutover counts as the watchdog's death. The loop is a step system on values for the same reason as above; the rewrite of the env file is a method.
- EnvFile: encodings other than one character for one code point.
- Allowlist: reading a single address from text is a parameter; letter case is folded for ASCII only.
- Text: strings are sequences of characters, so that invalid UTF-8 is not modelled; upper and lower case are ASCII only; the scanner's limit on line length.
- NetworkPolicy: how iptables reads protocols, port ranges, service names and odd numerals is a parameter, of which only plain tcp and udp ports are known; its commands fail for no other reason than a missing chain or a rejected match. JSON numbers are integers.
- Promotion: the listing's columns are a parameter of which only line structure, the leading number and the presence of LOG are used.
- Isolation: the check for empty parameters before the run, nftables rulesets, and a restore that fails halfway.
- ManagedBlock: reading and writing the PAM files, their snapshots and session timeouts.
- ConfigFiles: the clock (each backup's time is a parameter), file modes, and paths that are themselves the name of a backup made in the same run, for which the round trip is not claimed. The action dispatch around the three loops and the database itself.
- Drift: states whose values are not strings, cron jobs, firewall rules, services, ports and users; directory listing of the drop-ins; `visudo` and `systemctl` are outcomes.
- DbAdmin: executing statements, the privilege list inside them, MySQL and SQL Server; identifiers with NUL or beyond PostgreSQL's length limit.
- Poller: HMAC, dispatch and posting are outcomes of a job; `rand.Int63n` draws some number below its bound; the sleeping itself and the moment of cancellation.
- Reconnect: cancellation inside a turn; the token fetch is an outcome.
- Supervisor: what a started tunnel does; the moment of a tick.
- Compliance audits, discovery, forensics, cloud, Terraform, Helm and Ansible wrappers, platform variants, the backend and the frontend: command plumbing or easy members.
