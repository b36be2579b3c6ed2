# vsftpd: a verified model of its filter compiler, its bookkeeping, its protocols and its parsers

This project models the parts of vsftpd that carry its hardest arguments, in Dafny, and proves
them: for all rule tables, all runs, all interleavings, all inputs.

- **Seccomp filters** (`Bpf`, `FilterCompiler`, `Sandbox`, `Policy`, `Verdicts`, `Confinement`; from
  `seccompsandbox.c`). An interpreter for classic BPF, first-match semantics for a rule table, the
  compiler from one to the other, the table with its parallel arrays and the emitter that walks
  through the filter buffer, and the policies before login, after login and for the broker as
  functions of the configuration; the exact verdict on every system call, call by call and setting by
  setting; and that no command is killed at the calls by which it changes files.
- **Connection accounting** (`HashTable`, `Listener`; from `hash.c` and `standalone.c`). A bucketed,
  doubly linked hash table that refines a finite map, and the accept loop that keeps a counter
  and two such tables in agreement.
- **Processes and channels** (`PrivSock`, `Lockstep`, `PasvPort`, `Privops`, `Broker`, `SslHelper`;
  from `privsock.c`, `privops.c`, `twoprocess.c`, `postprivparent.c`, `sslslave.c`, `readwrite.c`,
  `ftpdataio.c`). A machine for a client and a server that exchange single bytes and descriptors in
  any interleaving; a theorem about every protocol whose calls match one by one; the broker of
  privileged operations and the TLS helper as two such protocols.
- **The session** (`PostLogin`, `Commands`, `TransferLog`, `Files`, `Eprt`; from `postlogin.c`,
  `ftpdataio.c`, `logging.c`, `sysutil.c`). The command loop with all handlers that set up, use and
  close data connections, change files or write the transfer log, and the loops that move a file.
  Client, network and signals are arbitrary. What a session asks of the privileged side is shown to be
  a history of the broker, and what it asks of its TLS helper one of the helper, so the theorems about
  one process and about several join.
- **Text and streams** (`Ascii`, `LineReader`, `Str`, `Decimal`, `Reply`, `IpAddrParse`, `Ipv6Parse`,
  `Glob`, `GlobExact`, `RateLimit`; from `ascii.c`, `netstr.c`, `str.c`, `ftpcmdio.c`,
  `ipaddrparse.c`, `ls.c`, `ftpdataio.c`).

`bug()` and `die()` are modelled as statuses, so that "this check never fires" is a postcondition.
System calls are nondeterministic: a bind, a connect or a read may fail whenever it likes, a new
descriptor is one that is not in use, a peek shows any non-empty part of what has arrived, the
clock does not go back. Strings are sequences of bytes. Machine integers are unbounded unless
their width matters; then wrap-around, truncation and the range are written out.

`dafny verify dfyconfig.toml` checks the whole project.

## What turned out differently from what one might expect

- `pasv_active` and `port_active` call each other. If both modes were ever active neither would
  return, at any depth, so the calls to `bug()` inside them are unreachable for a reason other than
  the intended one (`PostLogin.ActiveReturnsUnlessBoth`). Both modes never are active
  (`PostLogin.Session.Serve`).
- The line reader returns with a line the number of bytes that its last read consumed, not the
  length of the line, when the line arrived in several pieces (`LineReader.ReadLine`, `shown`).
- With `syslog_enable`, the rejection of sockets set up before login comes first in the filter after
  login as well, so a session in one process cannot open data connections
  (`Policy.SocketVerdict`).
- With `write_enable` off the filter after login still lets files be created: its mask for `open` and
  `openat` always has O_CREAT in it (`Policy.CreatingIsAllowed`). That, and the change of ownership
  of uploads where the session does it itself, is all that it lets through of the calls that change
  files (`Policy.ReadOnlyVerdict`). The commands themselves create nothing then
  (`PostLogin.Session.Serve`).
- A file that was there survives a failed upload if and only if `delete_failed_uploads` is off: a
  failed APPE, or a failed STOR to such a file, removes the file and not only what was added to it
  (`Files.FailedUploadCanRemove`, `PostLogin.Session.HandleUploadCommon`).
- REST has no effect on a STOU, or on a STOR by an anonymous user without `anon_other_write_enable`:
  the file must be new, and is opened so that all writes go to its end (`sysutil.c:1334-1340`). The
  bytes stand where REST said if and only if the file need not be new, or the position is zero, or
  there are no bytes (`Files.RestIsHonoured`; `Files.RestIsIgnored` for an input).
- With two processes, an anonymous upload with `chown_uploads` is killed by the filter at `fchmod`
  (`postlogin.c:1080`), and the parent that should change the owner has a filter that kills it at
  each of the three calls it needs for that, under every configuration
  (`Policy.ChownUploadsNeedOneProcess`, `Policy.BrokerCannotChown`).
- The file name matcher is greedy and never goes back: `*?` refuses `aa`, `*a*b*` refuses `aba`, and
  `*aa` refuses `aaa`. For which filters it is nevertheless exact can be read off their pieces between
  the `*`s (`GlobExact.ExactIff`). A NUL in a filter would make it accept names that do not match
  (`Glob.NulIsUnsound`); command lines cannot contain one (`ftpcmdio.c:233`).
- `::` at the end of an IPv6 address is not padded with zeros; the 16 bytes come out right exactly
  when something follows it or nothing is missing (`Ipv6Parse.SixteenBytes`). An EPRT with such an
  address, or with one of fewer than sixteen bytes and no `::`, ends the process at a bounds check
  (`Eprt.CompressedEndsProcess`, `Eprt.ShortFormEndsProcess`, `PostLogin.Session.HandleEprt`).
- The rate limiter converts a rate to `unsigned int`; 65536 bytes within 15 microseconds are out of
  its range (`RateLimit.FullBufferCanBeOutOfRange`). The bound on the bytes of a call holds whatever
  the conversion gives if and only if the rate is in range (`RateLimit.BoundIffInRange`).
- With `port_promiscuous`, and only then, PORT and EPRT keep a reserved port
  (`Commands.OwnAddressIsKept`), and the process dies when the connection is made
  (`PostLogin.Session.GetPortFd`).
- One separator behind the last number of a PORT is accepted, as are empty fields, which count as zero
  (`IpAddrParse.UcharsExactly`); an IPv6 address may end in one colon, and may have dotted quads anywhere
  (`Ipv6Parse.GroupsAccepted`).
- APPE is open to an anonymous user with `anon_other_write_enable` alone; `anon_upload_enable` is not
  asked for (`Commands.Refused`, `Commands.MayLog`).
- Writing an empty string to a TLS data connection succeeds without the helper process and fails
  with it; nothing else differs (`SslHelper.SameUnlessEmpty`).

## Model

| member | source | states |
|---|---|---|
| Bpf.AcceptedReturns | seccompsandbox.c:507-663 | a program the kernel accepts ends with a return on every record: no run leaves the program or loads outside the record |
| FilterCompiler.VerdictIsFirstMatch | seccompsandbox.c:555-663 | the verdict of a table is that of the first rule whose number and argument tests match, and kill if and only if no rule matches |
| FilterCompiler.ArgOffsetLoads | seccompsandbox.c:577-622 | the computed offset of an argument addresses its low 32 bits in the record |
| FilterCompiler.MaskAsJset | seccompsandbox.c:603-628 | jumping on the complement of a mask tests exactly that no bit outside the mask is set |
| FilterCompiler.BlockRuns | seccompsandbox.c:555-652 | the code of one rule returns its verdict when the rule matches and otherwise continues behind itself with the syscall number reloaded |
| FilterCompiler.RunIsRelative | seccompsandbox.c:507-663 | jumps are relative and forward, so code behaves the same behind any prefix |
| FilterCompiler.BlocksRun | seccompsandbox.c:547-663 | the blocks of a table followed by the final kill compute the table's verdict |
| FilterCompiler.CompilePreservesMeaning | seccompsandbox.c:507-663 | for every table and every record: kill on a foreign architecture, otherwise the verdict of the first matching rule |
| FilterCompiler.BlocksLength | seccompsandbox.c:510-514 | the length precomputed from the four counters is the length of the emitted code |
| FilterCompiler.CompiledIsAccepted | seccompsandbox.c:507-663 | every compiled table passes the kernel's checks: jumps inside the program, loads inside the record, length as precomputed and within 16 bits |
| Sandbox.Table.AllowNr | seccompsandbox.c:93-106 | appends one rule without tests, or traps exactly when the table is full or the number is negative; nothing else changes |
| Sandbox.Table.RejectNr | seccompsandbox.c:108-125 | appends a rejecting rule, or traps exactly on a full table, a negative number or an errno outside 0 to 255 |
| Sandbox.Table.AllowNr1ArgMatch | seccompsandbox.c:127-147 | appends a rule with one exact test, or traps exactly when table, number or argument index are out of range |
| Sandbox.Table.AllowNr1ArgMask | seccompsandbox.c:149-169 | the same with a mask test |
| Sandbox.Table.AllowNr2ArgMatch | seccompsandbox.c:171-197 | the same with two exact tests |
| Sandbox.Table.AllowNr2ArgMaskMatch | seccompsandbox.c:199-225 | the same with a mask test and an exact test |
| Sandbox.Table.AllowNr3ArgMatch | seccompsandbox.c:227-260 | the same with three exact tests |
| Sandbox.Table.Setup | seccompsandbox.c:262-505 | a sequence of valid calls adds exactly their rules in order, and traps if and only if the table would overflow |
| Sandbox.Table.EmitBlocks | seccompsandbox.c:555-652 | the emitter's loop fills the buffer with the blocks of the table and advances the pointer by their length |
| Sandbox.Table.Lockdown | seccompsandbox.c:507-663 | the buffer, allocated with the precomputed length, is filled exactly; the program is the compiled table and enforces it |
| Sandbox.CompiledEnforces | seccompsandbox.c:507-663 | a compiled table is accepted by the kernel and gives every record the table's verdict |
| Policy.Postlogin | seccompsandbox.c:367-497 | whatever the configuration, the rules after login fit into the table of 100 |
| Policy.Prelogin | seccompsandbox.c:324-365 | whatever the configuration, there are at most 25 rules before login, and each is about one of the base calls, a call of the control connection or `socket`; opening files is not among them |
| Policy.Broker | seccompsandbox.c:499-505 | the broker's rules fit into the table |
| Policy.Confine | seccompsandbox.c:262-663 | setting up any policy that fits and locking down reaches no trap; the installed filter gives every record the policy's verdict |
| Policy.PlanVerdictIsFirstMatch | seccompsandbox.c:262-505 | the verdict of a policy is the first-match verdict of the table it builds |
| Policy.UnmentionedIsKilled | seccompsandbox.c:262-505 | a call whose number no rule of a policy has is killed, whatever the number |
| Verdicts.VerdictBeforeLogin | seccompsandbox.c:324-365 | the exact verdict before login, for every configuration and every record, with the argument tests of each call and the settings that let it through |
| Verdicts.VerdictAfterLogin | seccompsandbox.c:367-497 | the same after login: among others `mkdir` if and only if the user may write and is not anonymous or has `anon_mkdir_write_enable`, `unlink`, `rmdir`, `rename`, `ftruncate`, `utime`, `utimes` and `chmod` each by its own settings |
| Verdicts.VerdictInBroker | seccompsandbox.c:499-505 | the same in the broker |
| Confinement.NeededCallsAreAllowed | seccompsandbox.c:469-495 | no command that the settings permit is killed at a call by which it makes, removes, renames or cuts something |
| Confinement.AllowedCallsAreNeeded | seccompsandbox.c:469-495 | making and removing directories, renaming and changing modes is allowed only if some permitted command does that |
| Policy.NoEscape | seccompsandbox.c:262-505 | no filter, at any stage and under any configuration, lets a process make any of 30 calls that start, trace, signal or control another process, or change the root, the mounts, the namespaces, the user, the groups or the capabilities |
| Policy.LoginKeepsVerdicts | seccompsandbox.c:324-497 | for all configurations, every record the filter before login does not kill gets the same verdict from the filter after login |
| Policy.ChownUploadsNeedOneProcess | seccompsandbox.c:433-451 | with `chown_uploads` and an anonymous user, `fchmod` is allowed if the session is one process and killed if it is two |
| Policy.BrokerCannotChown | seccompsandbox.c:499-505 | what the parent needs to change an owner, `recvmsg`, `fstat` and `fchown`, is killed there under every configuration |
| Policy.ReadOnlyVerdict | seccompsandbox.c:367-497 | with `write_enable` off, a call that changes files is allowed if and only if it opens with O_CREAT and no flag outside the mask, or changes the owner of an upload where the session does that; all others are killed |
| Policy.CreatingIsAllowed | seccompsandbox.c:367-406 | opening with O_CREAT alone is allowed under every configuration |
| Policy.OpenVerdict | seccompsandbox.c:367-406 | opening a file, by `open` or `openat`, is allowed if and only if no flag outside one mask is set |
| Policy.ReadOnlyOpens | seccompsandbox.c:367-406 | with `write_enable` off an `open` or `openat` that is allowed has access mode zero and does not truncate |
| Policy.SocketVerdict | seccompsandbox.c:262-497 | the verdict on `socket` after login as a function of the configuration, with the shadowing by `syslog_enable` |
| HashTable.LinkFront | hash.c:55-86 | putting a node in front of a chain keeps `prev` and `next` mutually inverse |
| HashTable.CutOut | hash.c:88-113 | cutting a node out of a chain leaves the rest linked both ways, in order |
| HashTable.Hash.GetNodeByKey | hash.c:130-144 | finds the node of the key if and only if the map has the key |
| HashTable.Hash.Lookup | hash.c:43-52 | returns the node whose value is the map's value for the key, or null if the key is absent |
| HashTable.Hash.SetValue | hash.c:43-52 | a write through a looked-up node updates the map at that key and nothing else |
| HashTable.Hash.Add | hash.c:54-86 | adds the pair to the map and keeps the table well formed; traps exactly on a present key or a bad hash |
| HashTable.Hash.Free | hash.c:88-113 | removes the key from the map and keeps the table well formed; traps exactly on an absent key |
| HashTable.IndexedAdd | hash.c:54-86 | a node in front of its key's bucket keeps every node in its bucket, once, with distinct keys |
| HashTable.IndexedRemove | hash.c:88-113 | the same for removal |
| Listener.BucketOfIpv4 | standalone.c:288-308 | with 256 buckets an IPv4 address falls into that of its last byte |
| Listener.HandleIpCount | standalone.c:320-339 | the count of the address goes up by one, from zero if it was absent, and is returned |
| Listener.DropIpCount | standalone.c:232-255 | the count goes down by one and an entry at zero disappears; traps exactly on an absent address or a zero count |
| Listener.DropUndoesCount | standalone.c:232-339 | counting up and down again leaves the table as it was |
| Listener.TallyAdd | standalone.c:167-196 | a new child keeps the counts equal to the numbers of children per address |
| Listener.TallyRemove | standalone.c:257-277 | so does the end of a child, and its address is there with a positive count |
| Listener.Server.Admit | standalone.c:167-172 | before `fork` the numbers handed to the child are exact, the child itself included |
| Listener.Server.Serve | standalone.c:161-204 | one accepted connection, with `fork` succeeding or failing, keeps the books exact and reaches no trap |
| Listener.Server.HandleSigchld | standalone.c:257-277 | reaping any number of children keeps the books exact and reaches no trap |
| Listener.Server.Run | standalone.c:155-277 | every run of the accept loop: at the accept point the child counter, the table of children and the counts per address agree, no entry is zero, no counter wraps, no trap is reached |
| PrivSock.IntRoundTrip | privsock.c:196-216 | an integer sent as four bytes is received as the same integer |
| PrivSock.StrRoundTrip | privsock.c:89-172 | a string or buffer within the limit is read to exactly its last byte and is received unchanged |
| PrivSock.OverlongRejected | privsock.c:113-172 | a length over the limit is refused as soon as it is known |
| Lockstep.StepKeepsInv | privsock.c:79-216 | every single read, write or service keeps the invariant that request or reply are split into read, in transit and unsent |
| Lockstep.LockStep | privsock.c:79-216 | in every reachable state of every interleaving nobody has misread a cell or trapped, completed calls returned what the direct operations return on possible answers, and between calls the channels are empty |
| Lockstep.NoDeadlock | privsock.c:79-216 | while a call is under way some step is possible |
| Lockstep.CallsEnd | privsock.c:79-216 | every step of a call brings its end nearer |
| Lockstep.CallCompletes | privsock.c:79-216 | a call that the operation itself would answer can be run to its end, with that answer |
| Lockstep.HistoriesHappen | privsock.c:79-216 | every sequence of calls that an honest client can make, each served as the operation itself serves it, is the log of some run |
| Lockstep.ServerFollows | privsock.c:79-216 | between two calls of any run, the server's state and the client's knowledge are those that the log determines |
| PasvPort.EveryDrawInRange | privops.c:118-147 | for all configured bounds 1024 <= min <= max <= 65535, and every drawn port is between them |
| PasvPort.ConfiguredPorts | privops.c:118-147 | the ports that can be drawn are exactly those from the configured lower to the configured upper bound, where these are valid |
| PasvPort.DrawIsScaling | privops.c:141-147 | the truncated floating-point expression is the integer scaling of the random value |
| PasvPort.DrawIsUniform | privops.c:141-147 | each port of a range of n is hit by at least floor(65536/n) and at most ceil(65536/n) of the 65536 draws |
| Privops.PerformKeepsWellFormed | privops.c:30-217 | every operation keeps the listening socket open and listening |
| Privops.StrangersAreRefused | privops.c:202-214 | no operation lets in a connection that is not the client's: one of a stranger is refused with -2 and leaves nothing behind |
| Privops.CallsAreRightful | privops.c:30-245 | what a call returns fits what the system answered: accepted connections are the client's, made ones go where asked and not to a reserved port, and only files that may be are given away |
| Privops.CleanupUndoesListen | privops.c:93-183 | clean-up after a listen restores the state before it |
| Privops.Privileged.DoPasvCleanup | privops.c:93-101 | closes and forgets the listening socket if there is one |
| Privops.Privileged.DoPasvListen | privops.c:113-183 | nine tries exactly while the address is taken, any other failure ends it; the port reported is the one listened on and in the configured range, the sockets of failed tries are closed; traps exactly if already listening |
| Privops.Privileged.DoGetDataSock | privops.c:30-91 | the new connection goes to the given address and nothing else changes; no reserved port; traps exactly if listening |
| Privops.Privileged.DoPasvAccept | privops.c:185-217 | the client gets a fresh socket, a stranger is closed and gives -2 (unless `pasv_promiscuous`), and no connection gives -1; traps exactly if not listening |
| Privops.Privileged.DoChown | privops.c:219-245 | a regular file of the anonymous or guest user is given away, one that is the new owner's already is left alone, and anything else ends the process |
| Broker.RequestUnderstood | twoprocess.c:215-288 | the parent reads exactly the child's request and understands it; a data connection goes to the peer because the child has checked the address |
| Broker.ReplyUnderstood | postprivparent.c:127-185 | the child recovers the result from the reply, including negative descriptors and ports |
| Broker.ReplyFramed | twoprocess.c:215-288 | the child reads exactly the parent's reply |
| Broker.RequestServed | postprivparent.c:48-185 | an honest child's request never trips a check, and the parent keeps no socket but the listening one |
| Broker.TwoProcessesAsOne | postprivparent.c:37-185 | for every run of an honest child and its parent: no message is misread, no check fires, the calls return what they return in one process with the same answers, no connection but the client's is handed over, and between calls the parent holds only the listening socket |
| Broker.CallsReturn | twoprocess.c:215-288 | no call of the child blocks for ever |
| Broker.HonestStep | twoprocess.c:215-288 | what a process that holds the sockets does itself, an honest child can ask for with the same result, and both end with the same listening socket |
| Broker.HistoriesHappen | postprivparent.c:37-185 | every history of an honest child happens in some run of child and parent, with the same results |
| Broker.ParentFollows | postprivparent.c:37-185 | between two calls of any run the parent is in the state that the calls lead to, and the child knows whether it listens |
| SslHelper.RequestUnderstood | readwrite.c:26-132 | the helper reads exactly the consumer's request and understands it |
| SslHelper.ReplyUnderstood | sslslave.c:34-134 | the consumer reads exactly the helper's reply and recovers number and bytes |
| SslHelper.RequestServed | sslslave.c:34-134 | an honest consumer's request never trips a check |
| SslHelper.HelperChecks | sslslave.c:54-130 | whoever asks, exactly these requests end the helper at a check: a handshake out of a clean state, a read of a bad size, a read or write without a TLS connection, a close with half of one |
| SslHelper.SameUnlessEmpty | readwrite.c:26-132 | a read, write, handshake or close gives its caller the same with the helper and without, if and only if it is not the write of an empty string |
| SslHelper.HelperInLockStep | sslslave.c:17-134 | in every run, at every step: no message is misread, no check fires, the helper has a data descriptor exactly when it has a TLS object, and the routines returned what they return without a helper, empty writes apart |
| SslHelper.HonestStep | sslslave.c:17-134 | a request that an honest consumer may make next is served, whatever the library answers, and gives a longer such history with the state that follows |
| SslHelper.HistoriesHappen | sslslave.c:17-134 | whatever an honest consumer can ask, it asks in some run of the two processes, with the same answers |
| SslHelper.HelperFollows | sslslave.c:17-134 | between two requests of any run the helper has the descriptor and the TLS object that the requests lead to |
| SslHelper.TransfersArePermitted | ftpdataio.c:646-660 | for every configured chunk size the reads and writes of a transfer, translated to ASCII or not, are within what the helper accepts |
| TransferLog.OneRecordPerEntry | logging.c:76-123 | in an orderly log every entry is followed by its own record, or dropped if it is a download |
| PostLogin.ActiveReturnsUnlessBoth | postlogin.c:508-543 | the two mutually recursive tests return the right answer if and only if not both modes are active |
| PostLogin.Session.StartEntry | logging.c:76-93 | starts an entry; traps exactly when one is pending |
| PostLogin.Session.DoLog | logging.c:117-123 | records the pending entry and clears it |
| PostLogin.Session.PasvActive | postlogin.c:523-543 | terminates and tells whether passive mode is on, given that not both modes are |
| PostLogin.Session.PortActive | postlogin.c:508-521 | the same for active mode |
| PostLogin.Session.HandlePasv | postlogin.c:564-643 | announces a port exactly when the argument asks for a supported protocol; then active mode is left and the port is the one being listened on, otherwise the modes stay as they were |
| Commands.OwnAddressIsKept | postlogin.c:968-1004 | the client's own address, by PORT or by EPRT, on an IPv4 or an IPv6 session, is kept exactly if its port is not reserved or any is allowed |
| PostLogin.Session.HandlePort | postlogin.c:968-1004 | leaves passive mode; the address the argument names, mapped on an IPv6 session, is kept exactly if it is the client's and not reserved, or if any is allowed |
| Eprt.ParseEprt | postlogin.c:1685-1745 | takes the argument apart as the code does: protocol, address with or without a scope, port, and which of them is complained about first |
| Eprt.EprtIpv4RoundTrip | postlogin.c:1685-1745 | a printed IPv4 address and port name themselves, mapped on an IPv6 session |
| Eprt.EprtIpv6RoundTrip | postlogin.c:1685-1745 | an IPv6 address in any spelling, upper or lower case, with or without dotted quads, and a port name its sixteen bytes, with or without a scope |
| Eprt.EprtCompressedRoundTrip | postlogin.c:1685-1745 | so does one with `::` that something follows |
| Eprt.EprtExactly | postlogin.c:1685-1745 | an argument names an address and a port if and only if it consists of three fields between bars that mean them |
| Eprt.MappedAddress | postlogin.c:1705-1740 | the mapped form of an IPv4 address is what the parser makes of it with `::ffff:` in front |
| Eprt.CompressedEndsProcess | ipaddrparse.c:21-58 | an EPRT with `::` in its address ends the process if and only if nothing follows the `::` and something is missing |
| Eprt.ShortFormEndsProcess | ipaddrparse.c:21-58 | an EPRT without `::` in its IPv6 address does if and only if the address has fewer than sixteen bytes |
| PostLogin.Session.HandleEprt | postlogin.c:1685-1772 | the same as HandlePort for EPRT; an address that is too short ends the process |
| PostLogin.Session.InitDataSockParams | ftpdataio.c:226-241 | takes over the descriptor and installs the handler; traps exactly if either is there already |
| PostLogin.Session.GetPasvFd | ftpdataio.c:102-128 | from a listening session: a connection of the client with its handler installed, or none and no change |
| PostLogin.Session.GetPortFd | ftpdataio.c:130-150 | the connection goes to the address the client gave; a reserved port gets here only with `port_promiscuous` and ends the process |
| PostLogin.Session.PostMarkConnect | ftpdataio.c:152-186 | there is a TLS object afterwards exactly if TLS is on and the handshake succeeded; a failure ends the session if reuse is required; a second object is a trap |
| PostLogin.Session.DisposeTransferFd | ftpdataio.c:48-100 | removes handler, TLS object and socket; reports a success if and only if TLS ended cleanly and neither an ABOR nor a timeout has come; traps exactly without a descriptor |
| PostLogin.Session.GetRemoteTransferFd | postlogin.c:1428-1456 | traps exactly if neither mode is active; otherwise a connection ready for the transfer, or none and nothing left over |
| PostLogin.Session.TransferDir | ftpdataio.c:301-392 | a recursive listing closes every directory it opened, on every path |
| PostLogin.Session.HandleLogged | postlogin.c:1173-1260 | MKD, RMD, DELE and SITE CHMOD start one entry, of their own kind; one that is recorded as a success has made or removed what was named, and any other is pending and has changed no file; nothing is done to a denied name |
| PostLogin.Session.HandleRnfr | postlogin.c:1278-1309 | leaves an entry pending exactly if it did not remember a name; a remembered name exists and is not denied |
| PostLogin.Session.HandleRnto | postlogin.c:1311-1351 | writes to the log only after a name was remembered; what is recorded as a success has moved that name, anything else is pending and has moved nothing |
| PostLogin.Session.SendLoop | ftpdataio.c:452-529 | for every way the file is read in pieces: what has been sent is the beginning of the file, in ASCII mode translated; all of it exactly if 0 is returned; -1 and -2 say which side failed |
| PostLogin.Session.SendDirect | ftpdataio.c:531-559 | the same for sendfile |
| PostLogin.Session.ReceiveFile | ftpdataio.c:585-644 | the same for what arrives and is written to the file |
| PostLogin.Session.MoveBytes | postlogin.c:746-753 | the transfer and its disposal give 0 if and only if all was moved, nothing failed, TLS ended cleanly and neither an ABOR nor a timeout had come |
| PostLogin.Session.Transfer | postlogin.c:746-783 | a transfer is recorded as a success if and only if it was complete in that sense; any other is left pending; the connection is gone and an ABOR is answered |
| PostLogin.Session.HandleRetr | postlogin.c:645-789 | a download is recorded as a success if and only if it was complete, and then the whole file from the restart position on has been sent; nothing at all is sent of a file that is denied or that the user may not read; only a directory is dropped from the log; the file is closed once, the connection is gone, the restart position is used up |
| PostLogin.Session.HandleUploadCommon | postlogin.c:1012-1171 | an upload is recorded as a success if and only if it was complete; then the file has exactly what was sent, at the position that REST gave if and only if the file need not be new (or the position is zero, or there are no bytes); a file that was made or opened and then failed has a part, and is gone if and only if `delete_failed_uploads` is on and it can be removed, whatever was there before; a file that must be new was not there before, a denied one is not touched, and with `chown_uploads` the file has been given away |
| Files.Stored | postlogin.c:1095-1109 | every byte of a file after a write at a position: what was sent, what was there, or zero in a gap |
| Files.UploadResumes | postlogin.c:1050-1109 | an upload that broke off is completed by APPE, and by REST with the length of the part and STOR |
| Files.UploadReplaces | postlogin.c:1050-1109 | a file that must be new has exactly the bytes that were sent, whatever REST said; so has an old one that is replaced |
| Files.RestIsHonoured | postlogin.c:1050-1109 | the bytes of a STOR or STOU stand where REST said if and only if the file need not be new, or the position is zero, or there are no bytes |
| Files.RestIsIgnored | postlogin.c:1050-1109 | REST 5 and one byte to a new file: it is the first byte |
| Files.FailedUploadCanRemove | postlogin.c:1166-1169 | for every tree, name and content: a failed upload can leave no file if and only if `delete_failed_uploads` is on |
| PostLogin.Session.HandleDirCommon | postlogin.c:797-943 | LIST and NLST use up the mode if a transfer can be made and the filter is not denied, and otherwise leave it; STAT leaves it always; the directory is closed on every path |
| TransferLog.EntryFinished | postlogin.c:451-454 | an entry that a command leaves pending is the only one it started, and recording it completes the log |
| PostLogin.Session.Execute | postlogin.c:177-450 | a command that some setting refuses does nothing at all; any other has its own effect on modes, settings, files and log, and leaves the rest alone; what is changed and logged is within the settings |
| PostLogin.Session.Turn | postlogin.c:112-460 | one command from a clean state never reaches a check and, if it completes, ends in a clean state: no descriptor, no handler, no open file, no pending entry, not both modes, no timeout; it recorded at most one entry, of its own kind |
| PostLogin.Session.Serve | postlogin.c:79-461 | the same for every sequence of commands; over a whole session nothing changes without `write_enable`; an anonymous user without `anon_other_write_enable` changes and removes nothing that was there, makes no file without `anon_upload_enable` either and no directory without `anon_mkdir_write_enable`; a denied name is never touched; the log has only entries that the settings permit; no mode is on that they forbid, and EPSV ALL is for good |
| PostLogin.Session.ReadOnlyUser | postlogin.c:244-313 | an anonymous user with none of the three permissions changes nothing at all |
| PostLogin.Session.ForcedTlsIsOn | postlogin.c:1910-1930 | where the settings force TLS on data connections there is no transfer without it |
| PostLogin.Session.AskedOfParent | postlogin.c:79-461 | what a session has asked of the privileged side is asked in some run of child and parent, with the same results |
| PostLogin.Session.NeverBothModes | postlogin.c:508-543 | in every such run the parent has the listening socket that the session counts on, and none while the child has a port to connect to |
| PostLogin.Session.SendData | readwrite.c:26-117 | a write of a transfer is a trap exactly without a data connection or without the TLS object that the settings call for, and what has been asked of the helper stays a permitted history |
| PostLogin.Session.ReceiveData | readwrite.c:72-94 | the same for a read, which gives some of what is to arrive, and nothing exactly at its end |
| PostLogin.Session.AskedOfHelper | sslslave.c:17-134 | what a session has asked of its TLS helper is asked in some run of consumer and helper, with the same answers |
| PostLogin.Session.HelperAgrees | ftpdataio.c:48-186 | in every such run the helper has a TLS object exactly when the session counts on one, for the session's data connection |
| Ascii.BinToAscii | ascii.c:58-98 | the output is the translation of the input, at most twice as long, and the flag is whether it ended in CR |
| Ascii.ToAsciiConcat | ascii.c:58-98 | translation in two parts with the flag carried over is translation of the whole |
| Ascii.ChunkingDoesNotMatter | ftpdataio.c:484-528 | however a file is cut into buffers, the translated stream is the same |
| Ascii.OutputHasNoBareLf | ascii.c:58-98 | no line feed of the output lacks its CR |
| Ascii.FixedPoints | ascii.c:58-98 | the output is longer by the number of bare line feeds, and text without any is unchanged |
| Ascii.Idempotent | ascii.c:58-98 | translating twice is translating once |
| Ascii.LinesKept | ascii.c:58-98 | with the CRs in front of line feeds removed, input and output are the same text |
| LineReader.AllocAltTerm | str.c:136-152 | the bytes before the first terminator |
| LineReader.ReadLine | netstr.c:20-87 | whatever the network shows in each peek, the result is the bytes before the first terminator, or overflow after exactly `maxlen` bytes, or end of file; the stream is left just behind; the count returned is what the last read consumed; the accounting check never fires; the process dies if and only if a peek or a read fails |
| LineReader.LineRoundTrip | netstr.c:20-87 | a line sent with its terminator is read back, and what follows stays |
| Str.LocateText | str.c:530-560 | finds the first occurrence if there is one |
| Str.LocateChars | str.c:503-528 | finds the first byte of a set if there is one |
| Str.SplitText | str.c:449-480 | cuts at the first occurrence |
| Str.ReplaceText | str.c:393-415 | terminates and replaces every occurrence from left to right |
| Str.ReplaceAllDoubles | str.c:393-415 | replacing a byte by two of it doubles each of its occurrences and nothing else |
| Str.UndoubleDouble | str.c:393-415 | undoing the doubling recovers the text |
| Decimal.ValueOfPrint | sysutil.c:852-859 | the value of a printed number is the number |
| Decimal.AtoiReads | sysutil.c:815-819 | `atoi` reads white space, a sign and digits, and ignores what follows, up to a NUL |
| Decimal.ParseFilesize | sysutil.c:821-850 | the loop from the right computes the value of at most 15 digits, and zero for anything else |
| Decimal.FilesizeOfPrint | sysutil.c:821-850 | it undoes printing up to 15 digits |
| Decimal.AtoiOfPrint | sysutil.c:815-819 | `atoi` undoes printing for every non-negative `int` |
| Reply.WriteStrCommon | ftpcmdio.c:113-142 | builds the encoded reply |
| Reply.ReplyIsOneLine | ftpcmdio.c:113-142 | for every status and text the reply has exactly one LF, its last byte |
| Reply.ReplyRoundTrip | ftpcmdio.c:113-142 | status, separator and text, with line feeds as NUL, are recovered from the reply |
| Reply.QuotedPathRoundTrip | postlogin.c:463-476 | a path is recovered from between its quotes, whatever quotes it contains |
| IpAddrParse.ParseUchars | ipaddrparse.c:66-96 | computes the numbers between separators, or fails on too many, too few or out-of-range ones |
| IpAddrParse.UcharsExactly | ipaddrparse.c:66-96 | a text is accepted, with these numbers, if and only if it is a list of so many fields, of which `atoi` reads each as its number; too many, too few and out-of-range ones are refused |
| IpAddrParse.UcharsRoundTrip | ipaddrparse.c:66-96 | parsing undoes printing |
| IpAddrParse.PasvPortRoundTrip | postlogin.c:619-641 | the six numbers of a PASV reply, given to PORT, name the same address and port |
| Ipv6Parse.ParseHex | ipaddrparse.c:129-161 | appends the two bytes of a group of hexadecimal digits, or fails exactly outside 16 bits or the digits |
| Ipv6Parse.HexOfSpelled | ipaddrparse.c:129-161 | a text of hexadecimal digits has their value, whatever the cases of its letters, if that has 16 bits |
| Ipv6Parse.SpelledByHex | ipaddrparse.c:129-161 | only such texts are accepted |
| Ipv6Parse.ParseDotquad | ipaddrparse.c:163-214 | appends the four bytes of a dotted quad, or fails exactly when it is not one |
| Ipv6Parse.QuadOfFields | ipaddrparse.c:163-214 | four numbers up to 255 with dots between them are read as they are, with or without zeroes in front |
| Ipv6Parse.FieldsOfQuad | ipaddrparse.c:163-214 | only they are |
| Ipv6Parse.ParseMain | ipaddrparse.c:98-127 | the bytes of all groups between colons |
| Ipv6Parse.ParseIpv6 | ipaddrparse.c:21-58 | the bytes on both sides of the first `::` with zeros between them if anything follows |
| Ipv6Parse.GroupsRoundTrip | ipaddrparse.c:98-127 | groups in any spelling, hexadecimal or dotted, with colons between them give their bytes |
| Ipv6Parse.GroupsAccepted | ipaddrparse.c:98-127 | only they are accepted, and the same with one more colon behind |
| Ipv6Parse.PlainFormRoundTrip | ipaddrparse.c:21-58 | without `::` the groups give their bytes if there are at most sixteen, and are refused otherwise |
| Ipv6Parse.CompressedRoundTrip | ipaddrparse.c:21-58 | a left part, `::` and a right part parse to left, zeros, right, to left alone if nothing follows, and are refused over sixteen bytes |
| Ipv6Parse.SixteenBytes | ipaddrparse.c:21-58 | there are sixteen bytes exactly when something follows the `::` or nothing was left out |
| Glob.Advance | ls.c:317-332 | the inner loop ends at the last of the chain of occurrences |
| Glob.PassesFilter | ls.c:275-403 | the loop computes the verdict of the matcher and takes at most 1000 turns |
| Glob.AcceptedNamesMatch | ls.c:275-403 | for every filter without a list of alternatives or a NUL, an accepted name matches in the usual sense, and running out of turns never accepts |
| Glob.AcceptsWithinTurns | ls.c:395-403 | acceptance takes fewer than 1000 turns, one for each token and one for a trailing text |
| GlobExact.ExactTailAccepts | ls.c:275-403 | behind a `*`, a filter that meets the condition accepts every matching name |
| GlobExact.TailMissed | ls.c:275-403 | behind a `*`, a filter that does not meet it refuses some matching name |
| GlobExact.ExactIff | ls.c:275-403 | for every filter without a list of alternatives or a NUL: the matcher gives the usual verdict on all names if and only if the pieces between the `*`s meet the condition and the turns suffice |
| GlobExact.ExactWithOneStar | ls.c:275-403 | with one `*` and a text behind it that comes to: the text has no border |
| GlobExact.QuestionAfterStarIsMissed | ls.c:339-348 | `*?` does not meet the condition, and refuses `aa` |
| GlobExact.SecondStarIsMissed | ls.c:315-333 | `*a*b*` does not meet it either, and refuses `aba` |
| Glob.NulIsUnsound | ls.c:303-338 | with a NUL in the filter a name that does not match is accepted, and another trips a check |
| RateLimit.CallbackBound | ftpdataio.c:243-292 | with the rate in range, the bytes of one call are below limit plus one, times the time between the window starts, with 0.01 s of slack if the clock stood still |
| RateLimit.PauseIsExact | ftpdataio.c:286-290 | the pause makes the window just so long that the rate comes down to the limit |
| RateLimit.PauseIsNotTooLong | ftpdataio.c:279-292 | if the pause ends when it should, at least the bytes that the limit allows for the window have been moved |
| RateLimit.BoundIffInRange | ftpdataio.c:243-292 | that holds whatever the conversion to `unsigned int` gives if and only if the rate is in its range |
| RateLimit.RunBound | ftpdataio.c:243-292 | for any consecutive calls, the bytes of all those in range are bounded by the time that all of them take |
| RateLimit.FullBufferCanBeOutOfRange | ftpdataio.c:279 | a full buffer within 15 microseconds exceeds `unsigned int` |
| RateLimit.Session.HandleIo | ftpdataio.c:243-292 | each call of the handler is a step of such a run and asks for exactly its pause, or changes nothing but the progress flag |

## Left out

- OpenSSL, PAM, shadow and utmp calls, capabilities, namespaces and credentials: foreign calls; `ssl_accept`, `ssl_data_close` and `ssl_read_into_str` appear only through what they can return.
- The i386 ptrace sandbox (`ptracesandbox.c`, `ftppolicy.c`): the seccomp compiler is the stronger form of the same idea.
- `vsf_ascii_ascii_to_bin`: as written it reads through a null pointer, so it does not do what its comment says; `Ascii.LinesKept` uses a pure function for removing CRs instead.
- `do_file_send_rwloop` hands the read buffer to the translation as its output; `Ascii.BinToAscii` is proved for distinct buffers.
- The normalisation of names and the recursion into `{,}` lists in `ls.c`: they depend on the file system; the matcher starts at the normalised name, and a complete list gives the verdict `Braces`.
- Lockstep.LockStep: descriptors keep their identity across a channel, where the kernel renumbers them, and a handler's checks are made when the whole request has been read, where `sslslave.c` makes two of them after the command byte.
- Privops.Privileged.DoPasvCleanup: closing an open socket succeeds; the code dies if it does not.
- Broker.TwoProcessesAsOne: the two sides are transitions over single cells, which is what lets them interleave, and not methods; the order of the calls inside a handler is kept by what it wants to read next.
- PostLogin.Session.AskedOfHelper: a reply or a line of a listing is one string that fits into a message.
- Policy.ChownUploadsNeedOneProcess: the system calls of a session are otherwise not compared with the filter; what `libc` adds to them is not in the source.
- PostLogin.Session.Serve: the lists of allowed and denied commands only turn a command into a refusal, and closing a local file succeeds.
- PostLogin.Session.HandlePort: both ends of the control connection have addresses of the same family.
- PostLogin.Session.SendLoop: what a failed write has sent of its last piece is not counted.
- PostLogin.Session.ReceiveFile: what arrives ends where the connection ends; whether TLS has announced that end is not seen before the disposal.
- PostLogin.Session.HandleDirCommon: the contents of listings, and whether a directory may be listed to an anonymous user.
- Privops.Privileged.DoGetDataSock: the local address and port, and the second try to bind them.
- PostLogin.Session.HandleUploadCommon: locks, modes and owners of files are not modelled, a directory counts as one name, the bytes that arrive are those that are written after any translation, and nobody else changes the files meanwhile.
- PostLogin.Session.Execute: SITE CHMOD and MDTM change modes and times, which files here do not have.
- HTTP mode, banners, FEAT, HELP, STAT and SITE text, process titles, `tunables.c` and the parsing of the configuration: easy members or plumbing.
- The login exchange of `twoprocess.c`: its wire format is that of `PrivSock`, but the processes it forks are not modelled.
- The buffers of `str.c` (`alloc_bytes`, the NUL behind the last byte): strings are values.
- Listener.Server.Run: children are reaped only at the accept point, and `fork` does not return the id of a child that is still tracked.
- RateLimit.RunBound: floating-point rounding is not modelled; a conversion that is undefined in C gives any value.
- SslHelper.SameUnlessEmpty: `ssl_write_str` does not repeat a write that the library asks to be repeated, where the helper's `ssl_write` does; the answer of the library is its last one.
