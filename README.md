# ops-ipapps relay core in Dafny

This project models the core of ops-ipapps, the OpenSwitch IP applications:

- **The UDP forwarder / DHCP relay daemon (IPv4).** This covers both copies, `udpfwd/` and `relay/udpfwd/`. The model includes:
  - the feature bitmap;
  - the option walk `dhcpScanOpt` / `dhcpPickupOpt`;
  - the option-82 validation and the in-place rewrite of relayed messages;
  - `in_cksum`;
  - the per-interface server tables with their reference-counted server entries;
  - the configuration handlers that keep those tables in step with the OVSDB rows;
  - the relay of requests to servers and of replies to clients;
  - the `unixctl` dump of the tables.
- **The DHCPv6 relay's server tables.** These are the unicast handlers of `dhcpv6_relay_config.c`.
- **The CLI helpers of the UDP forwarder / DHCP relay.** These are `udpfwd_vty_utils.c`: server-parameter decoding, the per-interface maximum and the add/remove of a server in a row.
- **The source-interface selection CLI.** This covers how a VRF row's source map is updated, reset and printed.
- **The `ping` and `traceroute` command builders of the diagnostics CLI.**

Values the C code keeps in structs become Dafny datatypes.

- **The server tables** (`udpfwd_ctrl_cb_p->serverHashMap` and `intfHashTable`) are a class, `ServerTables.Tables`. Its methods update the two maps in place. Its invariant `Valid` says that every server entry's reference count is the number of interface slots that point at it.
- **Packets** are byte sequences.
- **The option-82 rewrite** works in place on an array, as the C does. It is proved against a function on the message as it arrived (`Option82Rewrite.Rewrite`).
- **Loops of the C code** are methods with loops. Each is proved equal to a recursive specification function, and the properties the code promises are proved about those functions.

The byte order of the host is fixed to little-endian where it matters (`in_cksum`). IPv4 addresses are numbers whose most significant octet is the first one of the dotted quad.

Two builds are modelled by one parameter, `FeatureFlags.Build`:

- `udpfwd/`, which has every feature;
- `relay/udpfwd/`, whose `FTR_UDP_BCAST_FWD` / `FTR_DHCP_RELAY` flags decide which switch cases exist.

Operations that ask the operating system or OVSDB are parameters of the model. These are:

- the MAC and addresses of an interface, and `if_indextoname`;
- `inet_pton` / `inet_aton`;
- the address-class macros;
- the VRF lookup;
- the `PING_*` / `TRACE_*` defaults.

Where the C code does something its authors evidently did not intend, the model has both a member for the code as written, with a concrete input that shows the difference, and a corrected member that the rest of the model uses. These are listed under "## Findings".

## Model

| member | source | states |
|---|---|---|
| Common.Octets | udpfwd/src/udpfwd.c:579 | the four octets `inet_ntoa` prints read back, big-endian, to the address itself |
| Common.BigEndianRoundTrip | udpfwd/src/dhcp_options.c:159-160 | reading four bytes big-endian and splitting the number into octets gives back the same four bytes |
| Common.NatToDecimal | relay/udpfwd/src/udpfwd.c:680 | `%d` of a non-negative count is a non-empty run of decimal digits |
| Common.DigitRun | udpfwd/src/cli/udpfwd_vty_utils.c:185 | `atoi` reads the longest run of digits: every character before the returned length is a digit and the one after is not |
| Common.SkipSpaces | udpfwd/src/cli/udpfwd_vty_utils.c:185 | `atoi` skips leading white space: the result is a suffix of the input that does not start with a space |
| Common.DecimalValue | relay/udpfwd/src/udpfwd.c:680 | the digits `%d` prints denote the number printed |
| Common.AtoiOfDecimal | relay/udpfwd/src/udpfwd.c:341-347 | `atoi` of the text `%d` printed gives back the number (the stats interval and the port argument round-trip) |
| Common.DigitRunAll | udpfwd/src/cli/udpfwd_vty_utils.c:185 | on a string made only of digits the digit run is the whole string |
| FeatureFlags.FeatureBit | udpfwd/include/udpfwd_common.h:33-47 | every feature of the enum occupies exactly one bit of the 16-bit bitmap; a value outside the enum has none |
| FeatureFlags.FeatureBitsDistinct | udpfwd/include/udpfwd_common.h:33-47 | two different features never share a bit |
| FeatureFlags.GetFeatureStatus | relay/udpfwd/src/udpfwd_util.c:86-126 | a feature reads Enable exactly when the build has a case for it and its bit is set |
| FeatureFlags.SetFeatureStatus | relay/udpfwd/src/udpfwd_util.c:136-185 | after a set, a feature the build compiles reads back the status that was set; a feature without a case leaves the bitmap unchanged |
| FeatureFlags.SetBit | udpfwd/src/udpfwd_util.c:130-134 | `\|=` sets the bit exactly for Enable and `&= ~` clears it otherwise; no other bit changes |
| FeatureFlags.SetTouchesOnlyItsBit | udpfwd/src/udpfwd_util.c:125-170 | setting a feature changes no bit except its own |
| FeatureFlags.SetKeepsOtherFeatures | udpfwd/src/udpfwd_util.c:125-170 | setting one feature leaves the status of every other feature as it was |
| FeatureFlags.SetIdempotent | udpfwd/src/udpfwd_util.c:125-170 | setting the same status twice gives the same bitmap as setting it once |
| FeatureFlags.SetBitIdempotent | udpfwd/src/udpfwd_util.c:130-134 | setting or clearing the same bit twice equals doing it once |
| FeatureFlags.SetSameStatus | udpfwd/src/udpfwd.c:266-282 | setting a feature to the status it already has changes nothing, so `update_feature_state` may skip the call |
| FeatureFlags.SetBitSame | udpfwd/src/udpfwd_util.c:130-134 | setting a bit that is already set, or clearing one already clear, leaves the bitmap unchanged |
| FeatureFlags.BitSame | udpfwd/include/udpfwd_common.h:36-44 | for each single-bit feature constant, or-ing a set bit and and-ing off a clear bit are no-ops |
| FeatureFlags.UncompiledReadsDisable | relay/udpfwd/src/udpfwd_util.c:91-120 | in the relay build, a feature whose FTR flag is not defined reads Disable whatever the bitmap |
| FeatureFlags.PolicyName | udpfwd/src/udpfwd_util.c:58-62 | every option-82 policy has a non-empty name |
| FeatureFlags.RemoteIdName | udpfwd/src/udpfwd_util.c:66-69 | every remote-id kind has a non-empty name |
| FeatureFlags.NamesInjective | udpfwd/src/udpfwd_util.c:55-69 | both name tables are one-to-one, as their comments require |
| Checksum.OnesComplementSum | udpfwd/src/udpfwd_util.c:466-471 | the one's complement sum of a total is at most 0xffff |
| Checksum.WordSumBound | udpfwd/src/udpfwd_util.c:457-464 | the word sum of n bytes is at most 0xffff per full word plus 0xff for an odd byte, so a buffer of at most 0xffff bytes cannot overflow the 32-bit signed accumulator |
| Checksum.FoldIsOnesComplementSum | udpfwd/src/udpfwd_util.c:469-470 | below 2^31, the two folding steps compute exactly the one's complement (end-around carry) sum of section 1 of RFC 1071 |
| Checksum.InCksum | udpfwd/src/udpfwd_util.c:445-474 | `in_cksum` returns the complement of the one's complement sum of `csum` and the 16-bit words of the first `len` bytes, an odd last byte zero-extended; a negative `len` reads nothing |
| Checksum.AddWords | udpfwd/src/udpfwd_util.c:447-464 | the summing loop adds to `csum` exactly the word sum of the first `len` bytes |
| Checksum.FoldSum | udpfwd/src/udpfwd_util.c:469-473 | folding and complementing an accumulator below 2^31 gives 0xffff minus its one's complement sum |
| Checksum.FoldSteps | udpfwd/src/udpfwd_util.c:469-470 | the two assignments of the fold compute the folding function, step by step |
| Checksum.WordSumAppend | udpfwd/src/udpfwd_util.c:457-460 | the word sum of an even-length prefix followed by more bytes is the sum of the two word sums |
| Checksum.AddComplementIsNegativeZero | udpfwd/src/udpfwd_util.c:445-474 | adding the complement of a one's complement sum to the total gives negative zero (0xffff) |
| Checksum.ChecksumVerifies | udpfwd/src/udpfwd_util.c:445-474 | the receiver's check of section 1 of RFC 1071: the checksum of even-length data followed by its own checksum is 0 |
| DhcpLayout.SetField32 | udpfwd/src/udpfwd_xmit.c:152-154 | writing an address into a 32-bit field keeps the length, makes the field read back as the address and changes no other byte |
| OptionScan.NextOption | udpfwd/src/udpfwd_util.c:193-206 | the next option starts strictly after the current one: one byte on for PAD, the length byte plus two otherwise |
| OptionScan.FirstWithCode | udpfwd/src/udpfwd_util.c:189-191 | a hit is a visited option with the requested code; no hit means no visited option has that code |
| OptionScan.DhcpScanOpt | udpfwd/src/udpfwd_util.c:186-209 | `dhcpScanOpt` returns the first option of the walk with the requested code, and `*ovld_opt` ends as the last overload option passed before it (untouched for a NULL pointer) |
| OptionScan.WalkInRange | udpfwd/src/udpfwd_util.c:188-208 | every option the walk visits lies in `[opt, optend)`, and only the last one can be END |
| OptionScan.WalkStep | udpfwd/src/udpfwd_util.c:192-206 | END ends the walk; any other option is followed by the walk from the next option |
| OptionScan.SkipOption | udpfwd/src/udpfwd_util.c:196-206 | passing an option that is neither the one sought nor END keeps the search result, and the overload value becomes this option's body if it is an overload option |
| OptionScan.DhcpPickupOpt | udpfwd/src/udpfwd_util.c:224-278 | `dhcpPickupOpt` as written returns the lookup of the reference definition (options field unless an overload option came first; overload 1 or 3 then searches the file field, overload 2 the sname field), and a hit has the requested code |
| OptionScan.PickupOptSound | udpfwd/src/udpfwd_util.c:233-239 | a reported hit has the requested code, and without an overload option the answer is the options-field search |
| OptionScan.DhcpPickupOptBothFields | udpfwd/src/udpfwd_util.c:224-278 | the corrected lookup: overload 3 searches the file field and then the sname field; a hit has the requested code |
| OptionScan.BothFieldsFindsSname | udpfwd/src/udpfwd_util.c:252-254 | with overload 3 and no hit in the file field, the corrected lookup answers the sname-field search |
| OptionScan.OverloadBothMessage | udpfwd/include/dhcp_relay.h:38-40 | the counterexample message is 300 bytes long |
| OptionScan.OverloadBothMissesSname | udpfwd/src/udpfwd_util.c:259-275 | on a message with overload 3 and a message-type option only in sname, the code as written finds nothing while the corrected lookup finds it |
| OptionScan.FileFieldAllPad | udpfwd/src/udpfwd_util.c:259-266 | the file field of the counterexample message, all PAD, holds no message-type option |
| OptionScan.SignedLengthStalls | udpfwd/include/dhcp_relay.h:38 | reading the length through a signed `char`, an option with length byte 0xfe makes the scan stay on the same option, while the unsigned reading moves 256 bytes on |
| AgentOption.Option82Len | udpfwd/src/dhcp_options.c:54-77 | the relay's option is at most 255 bytes long: 16 bytes with a MAC remote id, 14 with an IP remote id |
| AgentOption.AgentOptionBytes | udpfwd/src/dhcp_options.c:435-470 | the appended option is exactly `dhcp_relay_get_option82_len` bytes long, starts with code 82, and its length byte counts the bytes after the two-byte header |
| AgentOption.ValidateAgentOption | udpfwd/src/dhcp_options.c:97-184 | the validation loop returns the verdict of the reference definition: a sub-option running past the buffer or with an unknown code is invalid, a missing circuit or remote id is a mismatch, a circuit id not 4 bytes long is invalid, a remote id that is not this interface's MAC or an address on it is a mismatch, otherwise Ok with the circuit id |
| AgentOption.UpdateInfo | udpfwd/src/dhcp_options.c:177-183 | `pkt_info` changes only on Ok, and then holds the circuit id that was validated |
| AgentOption.ValidateOwnOption | udpfwd/src/dhcp_options.c:435-470 | the option the relay appends validates as Ok with the circuit id it wrote, given the same MAC or an address that exists on the interface |
| AgentOption.LastOccurrenceWins | udpfwd/src/dhcp_options.c:124-134 | when a sub-option repeats, the last occurrence decides |
| AgentOption.NoneWithoutCode | udpfwd/src/dhcp_options.c:138-140 | without a sub-option of a code, the validator sees none |
| Option82Rewrite.ScanStep | udpfwd/src/dhcp_options.c:249-376 | one turn of the options loop moves the read cursor strictly forward, keeps the write cursor behind it and inside the message, and a turn that ends the function early does so with one of the early verdicts (drop, leave alone, out of buffer) |
| Option82Rewrite.OptionStep | udpfwd/src/dhcp_options.c:260-376 | a turn at an option with a length byte skips at least code and length, and keeps the state fitting the buffer |
| Option82Rewrite.OptionCheck | udpfwd/src/dhcp_options.c:264-352 | the early exits: when none applies, the option lies inside the message, a request's maximum-size option has length 2, and a request's agent option after the message type is under the replace policy |
| Option82Rewrite.OptionBody | udpfwd/src/dhcp_options.c:304-376 | after the checks, the loop goes on at the next option; only a reply whose agent option is corrupt is dropped |
| Option82Rewrite.CopyState | udpfwd/src/dhcp_options.c:260-280 | copying an option appends exactly its bytes to what is kept, clears end_pad, and marks the message as DHCP exactly when a message-type option has been seen |
| Option82Rewrite.ScanFrom | udpfwd/src/dhcp_options.c:249-378 | the loop ends either with a state that still fits the buffer or with an early verdict |
| Option82Rewrite.WithAgentOption | udpfwd/src/dhcp_options.c:401-476 | a request with the relay's option appended never outgrows the receive buffer |
| Option82Rewrite.OwnOption | udpfwd/src/dhcp_options.c:435-470 | the option the relay appends is `dhcp_relay_get_option82_len` bytes long |
| Option82Rewrite.AppendStart | udpfwd/src/dhcp_options.c:403-433 | the option is written at end_pad or the write cursor, one byte earlier over a final END, and never before the options area when the cookie's last byte is not END |
| Option82Rewrite.Patch | udpfwd/src/dhcp_options.c:480-494 | a message shorter than MINBOOTPLEN is zero-padded up to it (out of buffer only when MINBOOTPLEN exceeds the buffer); the bytes before the padding are kept, and a longer message is left as it is |
| Option82Rewrite.Assembled | udpfwd/src/dhcp_options.c:401-476 | the options area after the loop, with the relay's option for a request, is never longer than the message it came from |
| Option82Rewrite.MoveDown | udpfwd/src/dhcp_options.c:362-363 | `memmove` to a lower address: the destination holds the source's old bytes and nothing outside the destination changes |
| Option82Rewrite.MoveOption | udpfwd/src/dhcp_options.c:360-364 | moving an option down appends its bytes to the kept options and leaves the unread part of the message intact |
| Option82Rewrite.CopyOption | udpfwd/src/dhcp_options.c:358-376 | the copy branch of the loop, in place, leaves the buffer in the state the reference step describes, with the layout invariant kept |
| Option82Rewrite.CheckOption | udpfwd/src/dhcp_options.c:264-352 | the checks of one turn, on the array, give the reference verdict |
| Option82Rewrite.TakeOption | udpfwd/src/dhcp_options.c:260-376 | the turn for an option with a length byte, in place, agrees with the reference turn; a turn that ends the function leaves the buffer untouched |
| Option82Rewrite.PassOption | udpfwd/src/dhcp_options.c:304-376 | the turn for an option that passed the checks, in place, agrees with the reference; a drop leaves the buffer untouched |
| Option82Rewrite.StoreCode | udpfwd/src/dhcp_options.c:254-257 | `*sp++ = *option_parser_ptr` for PAD and END appends that byte to the kept options and writes nothing else |
| Option82Rewrite.OneTurn | udpfwd/src/dhcp_options.c:249-376 | one turn on the array agrees with the reference turn and keeps the layout invariant (header intact, unread bytes untouched, kept options at the front); a message left unmodified has its buffer unchanged |
| Option82Rewrite.Advance | udpfwd/src/dhcp_options.c:249-378 | one turn on the array leaves the rest of the reference loop's result unchanged, with the read cursor strictly further on |
| Option82Rewrite.ScanOptions | udpfwd/src/dhcp_options.c:246-378 | the loop over the array ends with the result of the reference loop over the message as it arrived; a message that is left alone or is not DHCP is unchanged in the buffer |
| Option82Rewrite.WriteBytes | udpfwd/src/dhcp_options.c:435-474 | a run of `*sp++` stores puts exactly those bytes at the cursor and changes nothing else |
| Option82Rewrite.WriteAfter | udpfwd/src/dhcp_options.c:435-474 | bytes stored right after a prefix extend that prefix |
| Option82Rewrite.AppendAgentOption | udpfwd/src/dhcp_options.c:401-476 | appending to a request in place gives the reference result: the same new length, or no write at all when a store would leave the buffer |
| Option82Rewrite.PadAndPatch | udpfwd/src/dhcp_options.c:477-494 | padding and the length fields, in place, give the reference result and leave the new message at the front of the buffer |
| Option82Rewrite.FinishInPlace | udpfwd/src/dhcp_options.c:380-494 | what follows the loop, in place, gives the reference verdict: a message left alone is unchanged, a stripped or rewritten one lies at the front of the buffer |
| Option82Rewrite.ProcessOption82 | udpfwd/src/dhcp_options.c:207-497 | `process_dhcp_relay_option82_message` on the buffer returns the verdict and `pkt_info` of the reference rewrite of the message as it arrived, and the buffer holds the message that verdict names |
| Option82Rewrite.OptionStepKeeps | udpfwd/src/dhcp_options.c:260-376 | a turn at an option with a length byte goes on at the next option of the walk and keeps its bytes unless it strips an agent option |
| Option82Rewrite.OptionBodyKeeps | udpfwd/src/dhcp_options.c:304-376 | the same, for the part of the turn after the checks |
| Option82Rewrite.ScanStepKeeps | udpfwd/src/dhcp_options.c:249-376 | one turn keeps the bytes of the option it passes, unless it strips an agent option, and goes on at the option the walk visits next |
| Option82Rewrite.ScanKeepsWalkOptions | udpfwd/src/dhcp_options.c:249-378 | a loop that runs to its end keeps exactly the options the walk visits, in order, except the stripped agent options |
| Option82Rewrite.ContinueKeeps | udpfwd/src/dhcp_options.c:249-378 | the induction step of the previous lemma for a turn that goes on |
| Option82Rewrite.FinishedKeeps | udpfwd/src/dhcp_options.c:283-290 | the last turn of a loop that ends at END keeps END and nothing after it |
| Option82Rewrite.KeptOptionsCons | udpfwd/src/dhcp_options.c:358-376 | the kept options of a walk are those of its first option followed by those of the rest |
| Option82Rewrite.CopyAdvanceAgrees | udpfwd/src/dhcp_options.c:360-376 | when the move cannot overwrite the length byte, the copy as written advances both cursors by the option's length, to the walk's next option |
| Option82Rewrite.MemmoveOverwritesLength | udpfwd/src/dhcp_options.c:360-376 | on a request whose stripped agent option is followed by a 3-byte option, the copy as written reads the moved data as the length and advances both cursors by 100 instead of 5, past END |
| Option82Rewrite.RewrittenMessage | udpfwd/src/dhcp_options.c:477-494 | a rewritten message keeps the fixed header and the cookie, is at least MINBOOTPLEN long, fits the buffer, and its new UDP and IP length fields count it exactly |
| Option82Rewrite.FinishedMessage | udpfwd/src/dhcp_options.c:380-494 | the same, for the part after the loop |
| Option82Rewrite.AssembledKeepsHeader | udpfwd/src/dhcp_options.c:401-476 | the assembled options area keeps the fixed header and the cookie |
| Option82Rewrite.AppendKeepsHeader | udpfwd/src/dhcp_options.c:428-433 | backing up over END never reaches into the header, because the byte before the options is the cookie's last byte |
| Option82Rewrite.RequestCarriesOwnOption | udpfwd/src/dhcp_options.c:401-476 | a request that had room for the relay's option ends with that option and END, and the option validates on the way back with the interface index as circuit id |
| Option82Rewrite.OwnOptionValidates | udpfwd/src/dhcp_options.c:97-184 | the body of an option the relay wrote validates with the circuit id it carries |
| Option82Rewrite.RewriteFinishes | udpfwd/src/dhcp_options.c:223-378 | a rewritten message has its cookie in place, the loop ran to its end, and the verdict is what the part after the loop makes of the loop's final state |
| Option82Rewrite.AppendedOption | udpfwd/src/dhcp_options.c:426-474 | when the option fits, the message ends with it and END |
| Option82Rewrite.EndsWithOption | udpfwd/src/dhcp_options.c:470-474 | a message built as prefix, option, END ends with that option and END |
| RelayXmit.PktInfo.constructor | udpfwd/src/udpfwd_xmit.c:176-182 | a fresh `struct in_pktinfo` holds the index, local and destination addresses it is given |
| RelayXmit.DhcpServers | udpfwd/src/udpfwd_xmit.c:170-174 | the port-67 servers of an interface are at most as many as its slots |
| RelayXmit.DhcpServersExact | udpfwd/src/udpfwd_xmit.c:170-194 | an address is among the servers the request goes to exactly when some slot holds that address with port 67 |
| RelayXmit.DhcpServersStep | udpfwd/src/udpfwd_xmit.c:170-174 | one more slot adds its server when its port is 67 and nothing otherwise |
| RelayXmit.ServerSendsSnoc | udpfwd/src/udpfwd_xmit.c:170-194 | one more address adds one send at the end |
| RelayXmit.WithGiaddr | udpfwd/src/udpfwd_xmit.c:152-154 | giaddr is set to the interface address only when it was 0.0.0.0, and no other byte changes |
| RelayXmit.ToServer | udpfwd/src/udpfwd_xmit.c:111-199 | `udpfwd_relay_to_dhcp_server`: without an interface name or address nothing changes; otherwise the hop count is incremented (modulo 256) even when the request is then dropped for exceeding UDPFWD_DHCP_MAX_HOPS; a relayed request has giaddr set when it was 0; only hops and giaddr change; a failure sends nothing and leaves the packet info |
| RelayXmit.ToServerSendsToDhcpServers | udpfwd/src/udpfwd_xmit.c:158-194 | a relayed request goes only to port 67, with interface index 0 in the packet info, and reaches an address exactly when a slot of the receiving interface holds that address with port 67 |
| RelayXmit.IncrementHops | udpfwd/src/udpfwd_xmit.c:141 | the post-increment of `hops` in the packet array is the 8-bit increment |
| RelayXmit.StampGiaddr | udpfwd/src/udpfwd_xmit.c:152-154 | the giaddr store in the packet array agrees with the reference stamp |
| RelayXmit.SendToServers | udpfwd/src/udpfwd_xmit.c:166-194 | the send loop sends the stamped packet info to each port-67 server of the slots, in slot order, and leaves the packet info stamped when at least one was sent |
| RelayXmit.SendIfDhcp | udpfwd/src/udpfwd_xmit.c:170-190 | one turn of the send loop adds a send exactly for a port-67 server |
| RelayXmit.StampInfo | udpfwd/src/udpfwd_xmit.c:176-184 | before each send, the packet info gets interface index 0 and the interface address as source |
| RelayXmit.RelayToDhcpServer | udpfwd/src/udpfwd_xmit.c:111-199 | the imperative function leaves the verdict, the packet, the packet info and the sends of the reference `ToServer` |
| RelayXmit.ReplyDestination | udpfwd/src/udpfwd_xmit.c:246-289 | a reply with the broadcast flag or a NAK goes to 255.255.255.255; otherwise to yiaddr, except that an ACK with yiaddr 0 goes to ciaddr, and is not relayed when ciaddr is 0 too |
| RelayXmit.ToClient | udpfwd/src/udpfwd_xmit.c:221-308 | `udpfwd_relay_to_dhcp_client` relays exactly when giaddr maps to a named interface and the reply has a destination; it then sends once, to port 68, with the packet info set to that interface; the message type is looked up with the corrected `OptionScan.DhcpPickupOptBothFields`, which also searches `sname` under overload 3 |
| RelayXmit.RelayToDhcpClient | udpfwd/src/udpfwd_xmit.c:221-308 | the imperative function leaves the verdict, the packet info and the sends of the reference `ToClient`; like it, it uses the corrected `OptionScan.DhcpPickupOptBothFields` where the C calls `dhcpPickupOpt` |
| RelayRecv.UdpfwdCtrl | udpfwd/src/udpfwd_recv.c:103-136 | `udpfwd_ctrl` runs the relay path the dispatch picks; on a NULL payload or packet info, or any other branch, nothing is sent and nothing changes |
| ServerTables.Slots | udpfwd/src/udpfwd_config.c:241-244 | the slots in use are the first `addrCount` entries of the server array |
| ServerTables.Deref | udpfwd/src/udpfwd_config.c:140-151 | dropping a reference never adds an entry to the server hash map |
| ServerTables.AddRef | udpfwd/src/udpfwd_config.c:219-239 | after one more reference the entry exists, and no other entry appears |
| ServerTables.AppendSlot | udpfwd/src/udpfwd_config.c:241-244 | storing at index addrCount keeps the node within capacity and raises the count by one |
| ServerTables.RemoveAt | udpfwd/src/udpfwd_config.c:290-302 | removing a slot lowers the count by one and keeps the array's size |
| ServerTables.FirstMatch | udpfwd/src/udpfwd_config.c:131-136 | the index returned is the first slot in use that matches, or the end when none does |
| ServerTables.Store | udpfwd/src/udpfwd_config.c:172-253 | `udpfwd_store_address` touches only the node of `name`, keeps it within capacity and keeps the set of interfaces |
| ServerTables.Remove | udpfwd/src/udpfwd_config.c:264-333 | `udpfwd_remove_address` touches only the node of `name`, which it may delete, and keeps every other interface |
| ServerTables.ConsistentServersUnique | udpfwd/src/udpfwd_config.c:172-333 | under the table invariant the interface table alone fixes the server hash map: each entry's reference count is the number of slots pointing at it |
| ServerTables.RefsInPick | udpfwd/src/udpfwd_config.c:172-333 | the references from a set of interfaces are those of one of them plus those of the rest |
| ServerTables.RefsInFrame | udpfwd/src/udpfwd_config.c:172-333 | interfaces whose counts agree give the same references |
| ServerTables.RefsUpdate | udpfwd/src/udpfwd_config.c:241-244 | replacing one interface node changes the references by the difference of its counts |
| ServerTables.RefsDelete | udpfwd/src/udpfwd_config.c:309-328 | deleting an interface node drops its references |
| ServerTables.RefsInsert | udpfwd/src/udpfwd_config.c:406-418 | adding an interface node adds its references |
| ServerTables.AppendSlotCount | udpfwd/src/udpfwd_config.c:241-244 | appending a server raises its count by one and no other, and keeps the node well formed |
| ServerTables.RemoveAtCount | udpfwd/src/udpfwd_config.c:290-302 | removing slot `i` lowers the count of its server by one and no other, and keeps the node well formed |
| ServerTables.AddEmptyConsistent | udpfwd/src/udpfwd_config.c:406-418 | adding a calloc'ed empty interface keeps the table invariant and every reference count |
| ServerTables.StoreCount | udpfwd/src/udpfwd_config.c:172-253 | a store adds one reference from `name`, to the stored server, exactly when it succeeds |
| ServerTables.RemoveCount | udpfwd/src/udpfwd_config.c:264-333 | a removal takes one reference from `name`, to the server of the first matching slot; a server that a slot holds and that matches is always found |
| ServerTables.StoreSlots | udpfwd/src/udpfwd_config.c:172-253 | a store succeeds exactly when the interface has room, appends the server to its slots, and otherwise changes nothing |
| ServerTables.StoreConsistent | udpfwd/src/udpfwd_config.c:172-253 | storing keeps the table invariant and adds exactly one reference, to the stored server |
| ServerTables.StoreOutcome | udpfwd/src/udpfwd_config.c:172-253 | a full interface refuses the server and nothing changes; otherwise the server lands at index addrCount, the other interfaces are untouched, and its reference count becomes the old references plus one |
| ServerTables.RemoveSlotRefs | udpfwd/src/udpfwd_config.c:280-302 | removing slot `i` takes exactly one reference, from the server it held |
| ServerTables.RemoveSlotOk | udpfwd/src/udpfwd_config.c:290-302 | every node stays well formed when a slot is removed |
| ServerTables.DropConsistent | udpfwd/src/udpfwd_config.c:140-151 | taking one reference from a server on both tables keeps the invariant, deleting the hash entry at zero |
| ServerTables.RemoveConsistent | udpfwd/src/udpfwd_config.c:264-333 | removing keeps the table invariant and takes exactly one reference, from the removed server |
| ServerTables.SlotReferenced | udpfwd/src/udpfwd_config.c:139-142 | under the invariant a slot in use names an entry of the hash map whose count is at least the number of slots holding it, so the decrement never goes below zero |
| ServerTables.NodeReferenced | udpfwd/src/udpfwd_config.c:139-142 | under the invariant every slot in use of an interface names an entry of the hash map |
| ServerTables.RemoveMissing | udpfwd/src/udpfwd_config.c:264-333 | a removal happens exactly when some slot in use matches; otherwise nothing changes |
| ServerTables.RemoveFound | udpfwd/src/udpfwd_config.c:264-333 | a removal moves the last slot into the first matching one, deletes the interface with its last server, takes one reference from the server (deleting the entry with its last reference) and leaves other interfaces and entries alone |
| ServerTables.RemoveSlots | udpfwd/src/udpfwd_config.c:290-302 | removing the first matching slot moves the last slot in use into the gap and keeps the node well formed |
| ServerTables.PushMatchesRemoveAt | udpfwd/src/udpfwd_config.c:94-108 | emptying slot `i` and moving the slot at the new count into it is the same array as moving the last slot down |
| ServerTables.WithNode | udpfwd/src/udpfwd_config.c:406-422 | the interface table gains a calloc'ed empty node only for an interface that had none; existing nodes are kept |
| ServerTables.RowDeleteTwoServers | udpfwd/src/udpfwd_config.c:342-376 | on an interface with two servers, the row-delete loop as written reads an emptied slot on its second step |
| ServerTables.Tables.constructor | udpfwd/src/udpfwd.c:238-241 | the daemon starts with both hash tables empty, which satisfies the invariant |
| ServerTables.Tables.ServerEntryCountsRefs | udpfwd/src/udpfwd_config.c:39-54 | under the invariant an entry is found exactly when some interface references the server, and its count is the number of those references |
| ServerTables.Tables.AddServerEntry | udpfwd/src/udpfwd_config.c:63-85 | `udpfwd_add_server_entry` inserts the key with reference count 1 and leaves the interface table |
| ServerTables.Tables.StoreAddress | udpfwd/src/udpfwd_config.c:172-253 | the method leaves the outcome and the tables of the reference store, and keeps the invariant |
| ServerTables.Tables.AppendServer | udpfwd/src/udpfwd_config.c:184-252 | the body of the store, in place, agrees with the reference store |
| ServerTables.Tables.RemoveServerRefEntry | udpfwd/src/udpfwd_config.c:120-161 | `udpfwd_remove_server_ref_entry` finds a server exactly when some slot in use matches; it then empties the first matching slot and takes one reference; otherwise nothing changes |
| ServerTables.Tables.PushDeletedServerRefToEnd | udpfwd/src/udpfwd_config.c:94-108 | the slot at the new count moves into the emptied slot and is emptied itself; the hash map is left alone |
| ServerTables.Tables.RemoveAddress | udpfwd/src/udpfwd_config.c:264-333 | the method leaves the outcome and the tables of the reference removal, and keeps the invariant |
| ServerTables.Tables.CloseGap | udpfwd/src/udpfwd_config.c:290-329 | after the slot is emptied, the count goes down and the last slot moves in, or the node is deleted with its last server |
| ServerTables.RemoveFirstServer | udpfwd/src/udpfwd_config.c:342-376 | one step of the corrected row-delete loop removes the server in slot 0, lowering the count by one or deleting the interface, and keeps the invariant |
| ServerTables.RemoveInterfaceServers | udpfwd/src/udpfwd_config.c:342-376 | the corrected row-delete loop deletes the interface with all its servers, leaves the other interfaces alone and keeps the invariant |
| UdpfwdConfig.RowAddresses | udpfwd/src/udpfwd_config.c:459-466 | the row's addresses are exactly the usable entries, and never 0.0.0.0 (the value that ends the collected lists) |
| UdpfwdConfig.Stale | udpfwd/src/udpfwd_config.c:426-449 | the removal list holds no address the row lists, and every other slot address as often as the slots hold it |
| UdpfwdConfig.Fresh | udpfwd/src/udpfwd_config.c:457-480 | the addition list holds exactly the row's addresses that no slot holds |
| UdpfwdConfig.RemoveAll | udpfwd/src/udpfwd_config.c:451-454 | the removals touch only the node of the interface, which they may delete |
| UdpfwdConfig.StoreAll | udpfwd/src/udpfwd_config.c:482-485 | the stores touch only the node of the interface and keep it within capacity |
| UdpfwdConfig.Prune | udpfwd/src/udpfwd_config.c:406-454 | the first half of the handler leaves a node for the interface, well formed, and touches no other interface |
| UdpfwdConfig.PruneShaped | udpfwd/src/udpfwd_config.c:406-454 | looking the node up again after the removals leaves every node well formed and the other interfaces untouched |
| UdpfwdConfig.Extend | udpfwd/src/udpfwd_config.c:456-485 | the second half keeps the set of interfaces, every node well formed, and the other interfaces untouched |
| UdpfwdConfig.ConfigChange | udpfwd/src/udpfwd_config.c:384-488 | a row without a port or VRF changes nothing; otherwise the interface gains a node if it had none and no other interface changes |
| UdpfwdConfig.ConfigChangeAsWritten | udpfwd/src/udpfwd_config.c:384-488 | the handler as written agrees with the corrected one whenever the removals did not delete the interface node |
| UdpfwdConfig.RemoveAllConsistent | udpfwd/src/udpfwd_config.c:451-454 | the removal loop keeps the reference counts exact |
| UdpfwdConfig.StoreAllConsistent | udpfwd/src/udpfwd_config.c:482-485 | the store loop keeps the reference counts exact |
| UdpfwdConfig.WithNodeConsistent | udpfwd/src/udpfwd_config.c:406-418 | adding an empty node keeps the reference counts exact |
| UdpfwdConfig.ConfigChangeConsistent | udpfwd/src/udpfwd_config.c:384-488 | applying a row keeps the reference counts exact |
| UdpfwdConfig.StoreAllAppends | udpfwd/src/udpfwd_config.c:482-485 | the stores only append, and each stored address ends up in a slot unless the interface is full |
| UdpfwdConfig.ExtendHolds | udpfwd/src/udpfwd_config.c:456-485 | after the second half every address of the row is in a slot, unless the interface is full |
| UdpfwdConfig.ConfigChangeHoldsRow | udpfwd/src/udpfwd_config.c:384-488 | after a row is applied the interface holds every address the row lists, unless it is full |
| UdpfwdConfig.DhcpSlotsCounted | udpfwd/src/udpfwd_config.c:426-449 | an address occurs among the slot addresses at least as often as slots hold it with port 67 |
| UdpfwdConfig.RemoveAllCount | udpfwd/src/udpfwd_config.c:451-454 | each listed removal of an address takes one slot holding it with port 67, while there is one |
| UdpfwdConfig.StoreAllCount | udpfwd/src/udpfwd_config.c:482-485 | stores of other addresses leave the count of a server alone |
| UdpfwdConfig.ConfigChangeDropsStale | udpfwd/src/udpfwd_config.c:384-488 | after a row is applied every slot with port 67 holds an address the row lists |
| UdpfwdConfig.RowAddressesStep | udpfwd/src/udpfwd_config.c:459-466 | one more row entry adds its address when it is usable and nothing otherwise |
| UdpfwdConfig.StaleStep | udpfwd/src/udpfwd_config.c:428-449 | one more slot adds its address to the removal list exactly when the row does not list it |
| UdpfwdConfig.FreshStep | udpfwd/src/udpfwd_config.c:459-480 | one more row entry adds its address to the addition list exactly when it is usable and no slot holds it |
| UdpfwdConfig.InRow | udpfwd/src/udpfwd_config.c:432-443 | the inner loop finds the address exactly when the row lists it |
| UdpfwdConfig.HoldsIp | udpfwd/src/udpfwd_config.c:468-474 | the inner loop finds the address exactly when some slot in use holds it |
| UdpfwdConfig.CollectRemoved | udpfwd/src/udpfwd_config.c:424-449 | the first collection loop builds the removal list of the reference definition |
| UdpfwdConfig.CollectAdded | udpfwd/src/udpfwd_config.c:456-480 | the second collection loop builds the addition list of the reference definition |
| UdpfwdConfig.RemoveAllStep | udpfwd/src/udpfwd_config.c:451-454 | one more removal applies `udpfwd_remove_address` to the result so far, skipping an interface already deleted |
| UdpfwdConfig.StoreAllStep | udpfwd/src/udpfwd_config.c:482-485 | one more store applies `udpfwd_store_address` to the result so far |
| UdpfwdConfig.RemoveServers | udpfwd/src/udpfwd_config.c:451-454 | the removal loop on the tables leaves the reference result and keeps the invariant |
| UdpfwdConfig.StoreServers | udpfwd/src/udpfwd_config.c:482-485 | the store loop on the tables leaves the reference result and keeps the invariant |
| UdpfwdConfig.LookupOrCreate | udpfwd/src/udpfwd_config.c:406-422 | the lookup returns the interface's node, after adding an empty one when there was none, and leaves the server map |
| UdpfwdConfig.HandleDhcpRelayConfigChange | udpfwd/src/udpfwd_config.c:384-488 | the corrected handler on the tables leaves the result of the reference handler and keeps the invariant |
| UdpfwdConfig.FindRow | udpfwd/src/udpfwd_config.c:355-361 | the search finds a row exactly when one has a port whose name agrees with the interface name on the first IFNAME_LEN characters |
| UdpfwdConfig.HandleDhcpRelayRowDelete | udpfwd/src/udpfwd_config.c:342-376 | after a row deletion exactly the interfaces that some row still names, or that hold no server, remain, unchanged, and the invariant holds |
| UdpfwdConfig.StrandedStartConsistent | udpfwd/src/udpfwd_config.c:384-488 | the example tables, one interface holding 0.0.0.1, satisfy the invariant |
| UdpfwdConfig.StrandedRemoval | udpfwd/src/udpfwd_config.c:451-454 | removing 0.0.0.1 empties both tables |
| UdpfwdConfig.StrandedStore | udpfwd/src/udpfwd_config.c:482-485 | storing 0.0.0.2 on the empty node creates its entry with count 1 |
| UdpfwdConfig.StrandedAddresses | udpfwd/src/udpfwd_config.c:459-466 | the example row lists 0.0.0.2 only |
| UdpfwdConfig.StrandedStale | udpfwd/src/udpfwd_config.c:426-449 | on the example, 0.0.0.1 is the only address to remove |
| UdpfwdConfig.ConfigChangeAsWrittenStrandsEntry | udpfwd/src/udpfwd_config.c:451-485 | the handler as written, reconfiguring an interface from 0.0.0.1 to 0.0.0.2, deletes the interface and leaves an entry for 0.0.0.2 that no interface references: the invariant is broken |
| UdpfwdConfig.SentinelRunStops | udpfwd/src/udpfwd_config.c:452 | the loop `servers[iter] != 0` visits exactly the entries before the first 0 when they are all non-zero |
| UdpfwdConfig.SentinelRunOverruns | udpfwd/src/udpfwd_config.c:452 | with no 0 entry the loop runs off the end of the array |
| UdpfwdConfig.SentinelLoopBound | udpfwd/src/udpfwd_config.c:393-485 | the 16-entry `servers` buffer and its 0-terminated loops pass on exactly the collected addresses while fewer than 16 are collected; with 16 or more, the loop reads or the collection writes past the array |
| UdpfwdConfig.EmptiedRowOverruns | udpfwd/src/udpfwd_config.c:425-452 | a row listing none of the sixteen addresses of a full interface makes all sixteen stale, so the removal loop reads past `servers` |
| Dhcpv6RelayConfig.CompareServerFacts | relay/dhcpv6r/src/dhcpv6_relay_config.c:51-64 | `compare_server` accepts every server for itself, and rejects a pair where only one side has an egress interface |
| Dhcpv6RelayConfig.AddOne | relay/dhcpv6r/src/dhcpv6_relay_config.c:501-515 | one step of the add loop touches only the node of the interface and keeps it within capacity |
| Dhcpv6RelayConfig.AddedFold | relay/dhcpv6r/src/dhcpv6_relay_config.c:494-517 | `dhcpv6r_get_ucast_entries_added` touches only the node of the interface and keeps it within capacity |
| Dhcpv6RelayConfig.RemoveShrinks | relay/dhcpv6r/src/dhcpv6_relay_config.c:297-369 | a removal by the exact key of a slot in use always succeeds and lowers the interface's count by one |
| Dhcpv6RelayConfig.FlushFrom | relay/dhcpv6r/src/dhcpv6_relay_config.c:460-484 | the corrected flush touches only the node of the interface, which it may delete, and keeps it within capacity |
| Dhcpv6RelayConfig.ConfigChange | relay/dhcpv6r/src/dhcpv6_relay_config.c:621-676 | a row without a port or VRF changes nothing; without a change of the unicast column only the node is created; no other interface changes |
| Dhcpv6RelayConfig.AddedFoldConsistent | relay/dhcpv6r/src/dhcpv6_relay_config.c:494-517 | the add loop keeps the reference counts exact |
| Dhcpv6RelayConfig.AddedFoldOk | relay/dhcpv6r/src/dhcpv6_relay_config.c:494-517 | the add loop keeps the interface's node well formed |
| Dhcpv6RelayConfig.FlushFromConsistent | relay/dhcpv6r/src/dhcpv6_relay_config.c:460-484 | the corrected flush keeps the reference counts exact |
| Dhcpv6RelayConfig.HeldGrows | relay/dhcpv6r/src/dhcpv6_relay_config.c:501-515 | slots that only grow keep every address they held |
| Dhcpv6RelayConfig.AddOneHolds | relay/dhcpv6r/src/dhcpv6_relay_config.c:501-515 | one add step keeps the slots in place and leaves the entry held unless the interface is full, in which case nothing changes |
| Dhcpv6RelayConfig.AddedFoldHolds | relay/dhcpv6r/src/dhcpv6_relay_config.c:494-517 | after the corrected add loop every row entry is held by a slot with that very address unless the interface filled up, and the earlier slots are kept in place |
| Dhcpv6RelayConfig.FlushOnlyRow | relay/dhcpv6r/src/dhcpv6_relay_config.c:460-484 | the corrected flush leaves only slots whose address the row lists |
| Dhcpv6RelayConfig.FlushKeepStep | relay/dhcpv6r/src/dhcpv6_relay_config.c:468-479 | a slot the row lists is kept and the flush goes on at the next slot |
| Dhcpv6RelayConfig.FlushDropStep | relay/dhcpv6r/src/dhcpv6_relay_config.c:479-482 | a slot the row does not list is removed and the flush goes on at the same index |
| Dhcpv6RelayConfig.RemoveKeepsListedPrefix | relay/dhcpv6r/src/dhcpv6_relay_config.c:297-369 | removing an unlisted slot keeps the listed slots before it |
| Dhcpv6RelayConfig.FlushKeepsRow | relay/dhcpv6r/src/dhcpv6_relay_config.c:460-484 | the corrected flush keeps every reference to a server whose address the row lists |
| Dhcpv6RelayConfig.FlushRemoveStep | relay/dhcpv6r/src/dhcpv6_relay_config.c:479-482 | a removal step of the flush succeeds, keeps the references to listed servers, and lowers the count by one |
| Dhcpv6RelayConfig.ConfigChangeConsistent | relay/dhcpv6r/src/dhcpv6_relay_config.c:621-676 | applying a row keeps the reference counts exact |
| Dhcpv6RelayConfig.ConfigChangeHoldsRow | relay/dhcpv6r/src/dhcpv6_relay_config.c:662-666 | after a change of the unicast column every server the row lists is held by the interface, unless the add loop found it full |
| Dhcpv6RelayConfig.ConfigChangeDropsStale | relay/dhcpv6r/src/dhcpv6_relay_config.c:662-666 | after a change of the unicast column the interface holds only servers the row lists |
| Dhcpv6RelayConfig.CreateInterfaceNode | relay/dhcpv6r/src/dhcpv6_relay_config.c:378-405 | `dhcpv6r_create_intferface_node` adds an empty node for the port, leaves the server map and keeps the invariant |
| Dhcpv6RelayConfig.HoldsAddress | relay/dhcpv6r/src/dhcpv6_relay_config.c:503-511 | the inner loop of the corrected add step finds a slot exactly when one holds that very address |
| Dhcpv6RelayConfig.GetUcastEntriesAdded | relay/dhcpv6r/src/dhcpv6_relay_config.c:494-517 | the corrected add loop on the tables leaves the reference result and keeps the invariant |
| Dhcpv6RelayConfig.InRow | relay/dhcpv6r/src/dhcpv6_relay_config.c:471-478 | the corrected inner loop of the flush finds the address exactly when the row lists it |
| Dhcpv6RelayConfig.FlushRemovedUcastEntries | relay/dhcpv6r/src/dhcpv6_relay_config.c:460-484 | the corrected flush on the tables leaves the reference result and keeps the invariant |
| Dhcpv6RelayConfig.HandleConfigChange | relay/dhcpv6r/src/dhcpv6_relay_config.c:621-676 | the corrected handler on the tables leaves the reference result and keeps the invariant |
| Dhcpv6RelayConfig.FindRow | relay/dhcpv6r/src/dhcpv6_relay_config.c:428-435 | the search finds a row exactly when some row's port name is a prefix of the interface name |
| Dhcpv6RelayConfig.HandleRowDelete | relay/dhcpv6r/src/dhcpv6_relay_config.c:414-449 | after a row deletion exactly the interfaces that some row still names, or that hold no server, remain, unchanged, and the invariant holds |
| Dhcpv6RelayConfig.RowDeleteAsWrittenFails | relay/dhcpv6r/src/dhcpv6_relay_config.c:442-445 | on an interface with two servers the row-delete loop as written reads an emptied slot |
| Dhcpv6RelayConfig.ExampleAddressesDiffer | relay/dhcpv6r/src/dhcpv6_relay_config.c:51-64 | 2001::1 and 2001::2 are not prefixes of each other, while 2001::1 is a prefix of 2001::10 |
| Dhcpv6RelayConfig.AddsBehind | relay/dhcpv6r/src/dhcpv6_relay_config.c:494-517 | on an interface holding 2001::2 and the row [2001::1, 2001::2], the add loop appends 2001::1 behind 2001::2 |
| Dhcpv6RelayConfig.FlushDropsListed | relay/dhcpv6r/src/dhcpv6_relay_config.c:468-482 | the flush as written then compares slot 0 with row entry 0, removes 2001::2, and never looks at slot 0 again |
| Dhcpv6RelayConfig.ConfigChangeAsWrittenDropsListed | relay/dhcpv6r/src/dhcpv6_relay_config.c:460-484 | the handler as written leaves that interface with 2001::1 alone, although the row still lists 2001::2 |
| Dhcpv6RelayConfig.ConfigChangeAsWrittenIgnoresLonger | relay/dhcpv6r/src/dhcpv6_relay_config.c:51-64 | the handler as written leaves an interface holding 2001::1 unchanged under the row [2001::10], because the prefix comparison takes 2001::1 for 2001::10 |
| DaemonConfig.WithFeature | udpfwd/src/udpfwd.c:266-282 | after `set_feature_status` on the control block, a feature the build compiles reads back the new status; policy, remote-id and statistics interval are untouched |
| DaemonConfig.WithFeatureKeeps | udpfwd/src/udpfwd.c:266-282 | updating one feature leaves the status of every other feature alone |
| DaemonConfig.Defaults | relay/udpfwd/src/udpfwd.c:150-187 | `udpfwd_set_default_config`: with the DHCP relay compiled in, remote-id becomes mac and the policy keep (udpfwd copy) or replace (relay copy); the relay copy with the relay compiled in sets the statistics interval to 5000 ms; nothing else of policy, remote-id or interval changes |
| DaemonConfig.DefaultStatuses | udpfwd/src/udpfwd.c:162-191 | after the defaults, relay and hop-count increment are enabled exactly when compiled in, and broadcast forwarding, option 82 and its validation are disabled, whatever the bitmap held |
| DaemonConfig.StartupDefaults | udpfwd/src/udpfwd.c:200-208 | the control block after the `memset` and the defaults is exactly: relay and hop-count bits set, policy keep, remote-id mac (udpfwd copy), and the same with policy replace and interval 5000 (relay copy) |
| DaemonConfig.KeyBoundaries | relay/udpfwd/src/udpfwd.c:386-420 | an absent key is never true; the empty string, "t" and "true" are true; "truex" and "yes" are not |
| DaemonConfig.ParseNames | udpfwd/src/udpfwd_util.c:57-68 | each name of `policy_name` and `remote_id_name` parses back to its own enumerator |
| DaemonConfig.ParseAbbreviations | relay/udpfwd/src/udpfwd.c:287-319 | "r", "rep" and "" give REPLACE, "d" gives DROP, an absent value gives KEEP; "i" and "" give IP, an absent value gives MAC |
| DaemonConfig.UdpfwdOption82NeverStored | udpfwd/src/udpfwd.c:290-328 | in the udpfwd copy, "drop" parses to DROP and "ip" to IP, yet the control block keeps KEEP and MAC |
| DaemonConfig.RelayCopyStores | relay/udpfwd/src/udpfwd.c:287-331 | in the relay copy the stored policy and remote-id are always the parsed ones |
| DaemonConfig.DhcpUpdateStatuses | relay/udpfwd/src/udpfwd.c:383-431 | the dhcp_config part sets relay and hop-count from their "disabled" keys, option 82 and validation from their "enabled" keys, and policy and remote-id from their parsers |
| DaemonConfig.GlobalUpdateDhcp | udpfwd/src/udpfwd.c:337-404 | with the System row present, modified and its dhcp_config modified, every DHCP relay feature, the policy and the remote-id follow their keys; otherwise all of them keep their values |
| DaemonConfig.OtherKeepsDhcp | udpfwd/src/udpfwd.c:407-416 | the other_config part changes no feature but broadcast forwarding, and neither policy nor remote-id |
| DaemonConfig.GlobalUpdateOther | relay/udpfwd/src/udpfwd.c:361-457 | with the row present, modified and other_config modified, broadcast forwarding follows its "enabled" key and, in the relay copy, a present interval key is read with `atoi`; otherwise both keep their values |
| DaemonConfig.DhcpKeepsOther | udpfwd/src/udpfwd.c:356-404 | the dhcp_config part never touches broadcast forwarding or the statistics interval |
| DaemonConfig.ApplyChanges | udpfwd/src/udpfwd.c:455-460 | applying the inserted or modified rows in table order keeps every interface entry shaped, drops no interface, and leaves an interface no changed row names as it was |
| DaemonConfig.ApplyChangesConsistent | udpfwd/src/udpfwd.c:455-460 | applying the changed rows keeps the server-table invariant (reference counts match the interface lists) |
| DaemonConfig.ApplyChangedRows | udpfwd/src/udpfwd.c:455-460 | the table walk leaves the tables equal to `ApplyChanges` of the old tables and keeps them valid |
| DaemonConfig.DhcpRelayServerConfigUpdate | udpfwd/src/udpfwd.c:428-466 | an empty dhcp_relay table runs the row delete (only interfaces without servers stay); a table with no inserted, deleted or modified rows changes nothing; with changes but no deletion the changed rows are applied in order; the invariant always holds |
| DaemonConfig.ControlBlock.constructor | udpfwd/src/udpfwd.c:200-208 | the `memset` control block with the defaults applied, sequence number 0 |
| DaemonConfig.ControlBlock.SetDefaultConfig | udpfwd/src/udpfwd.c:162-191 | the configuration becomes `Defaults` of the old one; the sequence number is kept |
| DaemonConfig.ControlBlock.SetFeature | udpfwd/src/udpfwd.c:165-182 | the configuration becomes `WithFeature` of the old one |
| DaemonConfig.ControlBlock.UpdateFeatureState | udpfwd/src/udpfwd.c:266-282 | writing only on a change gives the same configuration as an unconditional `set_feature_status` |
| DaemonConfig.ControlBlock.UpdateOption82Policy | relay/udpfwd/src/udpfwd.c:287-306 | the stored policy becomes the parsed one and nothing else changes |
| DaemonConfig.ControlBlock.UpdateOption82RemoteId | relay/udpfwd/src/udpfwd.c:314-331 | the stored remote-id becomes the parsed one and nothing else changes |
| DaemonConfig.ControlBlock.UpdateStatsRefreshInterval | relay/udpfwd/src/udpfwd.c:339-351 | the statistics interval becomes `atoi` of the value and nothing else changes |
| DaemonConfig.ControlBlock.ProcessGlobalConfigUpdate | relay/udpfwd/src/udpfwd.c:361-457 | the control block becomes `GlobalUpdate` of the old one (whose effects the lemmas above state); the sequence number is kept |
| DaemonConfig.ControlBlock.Reconfigure | udpfwd/src/udpfwd.c:522-543 | the udpfwd copy does nothing when the IDL sequence number equals the cached one and caches the new number otherwise; the relay copy always processes and keeps its number; the dhcp_relay walk runs exactly when the DHCP relay is compiled in and the tables stay valid |
| DaemonDump.TextAppend | udpfwd/src/udpfwd.c:596-631 | the text of two runs of lines is the text of the first followed by that of the second, so successive `ds_put_format` calls compose |
| DaemonDump.GlobalLinesReadBack | relay/udpfwd/src/udpfwd.c:706-723 | with both features compiled in there are seven global lines; broadcast forwarding and relay print 1 exactly when enabled and relay prints 0 exactly when disabled; the policy and remote-id lines carry names that parse back to the configured values |
| DaemonDump.ConcatStep | udpfwd/src/udpfwd.c:571-581 | the lines of one more element are appended after those of the elements before it |
| DaemonDump.ConcatEmpty | udpfwd/src/udpfwd.c:571-581 | a loop prints nothing exactly when every element prints nothing |
| DaemonDump.ConcatLength | udpfwd/src/udpfwd.c:571-581 | when every element prints `n` lines, `n` times the number of elements are printed |
| DaemonDump.ConcatOneEach | relay/udpfwd/src/udpfwd.c:672-681 | when every element prints one line, line `i` is element `i`'s line |
| DaemonDump.ConcatOnPort | udpfwd/src/udpfwd.c:573-576 | printing through the port filter equals printing only the servers the filter lets through |
| DaemonDump.SlotLinesEmpty | udpfwd/src/udpfwd.c:573-576 | a server prints nothing exactly when a port is given and it is not the server's port |
| DaemonDump.ServerLinesEmpty | udpfwd/src/udpfwd.c:571-584 | no server line is printed exactly when `found` stays false, which is when the "No IP address associated" line may follow |
| DaemonDump.OnPort | udpfwd/src/udpfwd.c:573-576 | the servers on one port are slots in use, no more of them than the interface holds |
| DaemonDump.OnPortSelects | udpfwd/src/udpfwd.c:571-576 | a server is on the port exactly when it is a slot of the interface that the port filter shows (any port for 0, else that port) |
| DaemonDump.FilterIsSelection | udpfwd/src/udpfwd.c:571-581 | dumping with a port filter prints exactly what dumping, without a filter, the servers on that port prints |
| DaemonDump.RelayLinePerServer | relay/udpfwd/src/udpfwd.c:672-681 | without a filter the relay copy prints one line "Port p - ip,ref_count" per server, in slot order |
| DaemonDump.UdpfwdLinesPerServer | udpfwd/src/udpfwd.c:571-581 | without a filter the udpfwd copy prints three lines per server |
| DaemonDump.InterfaceDump | udpfwd/src/udpfwd.c:555-585 | `udpfwd_interface_dump` appends exactly the text of the interface's block (header, statistics in the relay copy, filtered server lines, "No IP address" line) to `ds` |
| DaemonDump.PutServers | relay/udpfwd/src/udpfwd.c:672-681 | the server loop appends the filtered server lines and leaves `found` true exactly when some server passes the filter |
| DaemonDump.ServerLinesStep | udpfwd/src/udpfwd.c:571-581 | the server lines after one more slot are the previous lines followed by that slot's lines |
| DaemonDump.ShownStep | udpfwd/src/udpfwd.c:576-577 | `found` after one more slot is `found` before it or that slot passing the filter |
| DaemonDump.Put | udpfwd/src/udpfwd.c:569 | one `ds_put_format` of a line appends that line and its newline to `ds` |
| DaemonDump.PutLines | relay/udpfwd/src/udpfwd.c:644-669 | a run of `ds_put_format` calls appends the text of those lines in order |
| DaemonDump.SharedHelperLine | ops-tests/component/test_daemon_ct_dhcp_relay.py:231-254 | the helper 10.10.10.1 on port 67 with reference count 4 prints as "Port 67 - 10.10.10.1,4", whose text after the comma reads as 4 |
| DaemonDump.HelperAddressText | relay/udpfwd/src/udpfwd.c:679-680 | `inet_ntoa` of 0x0A0A0A01 is "10.10.10.1" |
| DaemonDump.SmallDecimals | relay/udpfwd/src/udpfwd.c:678-680 | `%d` of 1, 4, 10 and 67 prints "1", "4", "10" and "67" |
| DaemonDump.NamedInterface | udpfwd/src/udpfwd.c:620-630 | asking for a name the table does not hold prints the global lines and then only "No servers are configured on this interface :name"; asking for one it holds prints that interface's header right after the global lines |
| DaemonDump.ValidNodes | udpfwd/src/udpfwd.c:617-619 | every interface of a consistent table is well formed, so the dump loop may read all its slots |
| DaemonDump.PutAllInterfaces | udpfwd/src/udpfwd.c:617-619 | `SHASH_FOR_EACH` appends the block of every interface in table order |
| DaemonDump.AllInterfacesStep | relay/udpfwd/src/udpfwd.c:725-728 | the blocks after one more interface are the previous blocks followed by that interface's block |
| DaemonDump.InterfacesDump | relay/udpfwd/src/udpfwd.c:699-739 | `udpfwd_interfaces_dump` produces exactly the text of the global lines followed by every interface's block, or by the named interface's block, or by the "No servers are configured" line |
| VtyUtils.PortOfName | udpfwd/src/cli/udpfwd_vty_utils.c:170-182 | a protocol name resolves exactly when some table entry has that name, and then to that entry's number |
| VtyUtils.PortOfNumber | udpfwd/src/cli/udpfwd_vty_utils.c:183-195 | a port number is accepted exactly when some table entry carries it, and is kept as given |
| VtyUtils.DecodeServerParam | udpfwd/src/cli/udpfwd_vty_utils.c:109-206 | the verdict, the updated server record and the messages printed equal the reference check `Decode`: address parse, class refusal per feature, helper addresses accepted without a port, forwarder ports by name or number |
| VtyUtils.ScanProtocols | udpfwd/src/cli/udpfwd_vty_utils.c:173-194 | the scan with `break` finds an entry exactly when the lookup does and returns the port of the first match |
| VtyUtils.NameLookupAt | udpfwd/src/cli/udpfwd_vty_utils.c:173-181 | the name lookup returns the number of the first entry carrying that name |
| VtyUtils.TableFacts | udpfwd/src/cli/udpfwd_vty_utils.c:56-69 | the table has MAX_UDP_PROTOCOL (11) entries, distinct names all starting with a letter, and non-negative numbers |
| VtyUtils.TableResolves | udpfwd/src/cli/udpfwd_vty_utils.c:56-69 | each entry's name, and the decimal text of its number, resolve to that entry's number |
| VtyUtils.NameResolves | udpfwd/src/cli/udpfwd_vty_utils.c:173-181 | in a table with distinct names, an entry's name finds that very entry |
| VtyUtils.AcceptedPorts | udpfwd/src/cli/udpfwd_vty_utils.c:170-195 | every accepted port is a number of the table; an argument starting with a letter is accepted exactly when it is a table name |
| VtyUtils.Port81Refused | ops-tests/component/test_vtysh_ct_udp_forwarder.py:78-83 | port 81 is refused, so "Invalid UDP portname/portnumber entered." is printed |
| VtyUtils.AtoiOf81 | udpfwd/src/cli/udpfwd_vty_utils.c:185 | "81" does not start with a letter and `atoi` reads it as 81 |
| VtyUtils.NoEntryNumbered | udpfwd/src/cli/udpfwd_vty_utils.c:56-69 | no table entry carries port 81 |
| VtyUtils.InvalidNameRefused | ops-tests/component/test_vtysh_ct_udp_forwarder.py:85-90 | the name "invalidUDP" is refused |
| VtyUtils.UnparsableAddressFirst | udpfwd/src/cli/udpfwd_vty_utils.c:123-127 | an address `inet_pton` refuses gives "Invalid IPv4 address." and no other message, and leaves the record untouched |
| VtyUtils.ClassMessages | udpfwd/src/cli/udpfwd_vty_utils.c:129-159 | for the forwarder the broadcast message appears exactly for an invalid address that is broadcast or not subnet-broadcast; for the relay the multicast message appears exactly for an invalid address that is not broadcast or not subnet-broadcast |
| VtyUtils.HelperAddressAccepted | udpfwd/src/cli/udpfwd_vty_utils.c:161-166 | a helper address that passes the class checks is accepted with no message, whatever the port argument |
| VtyUtils.ForwarderAccepted | udpfwd/src/cli/udpfwd_vty_utils.c:161-205 | a forwarder entry is accepted exactly when the address parses, passes the class check and the port resolves; it then holds that address and port and nothing is printed |
| VtyUtils.FindServerIp | udpfwd/src/cli/udpfwd_vty_utils.c:219-233 | true exactly when one of the first `count` addresses of the row equals the given one |
| VtyUtils.PortTotalGrows | udpfwd/src/cli/udpfwd_vty_utils.c:261-277 | the address total of a port over a prefix of the rows never exceeds the total over all rows, so stopping early is sound |
| VtyUtils.MaxcountReached | udpfwd/src/cli/udpfwd_vty_utils.c:245-304 | true exactly when the feature is compiled in and the port's rows of that feature's table hold at least 8 addresses together |
| VtyUtils.Without | udpfwd/src/cli/udpfwd_vty_utils.c:379-383 | removing an address never lengthens the list |
| VtyUtils.WithoutCounts | udpfwd/src/cli/udpfwd_vty_utils.c:379-383 | removal keeps every other address as often as it occurred and drops every copy of the removed one |
| VtyUtils.WithoutMembers | udpfwd/src/cli/udpfwd_vty_utils.c:379-383 | an address survives removal exactly when it was present and differs from the removed one |
| VtyUtils.WithoutShorter | udpfwd/src/cli/udpfwd_vty_utils.c:375-383 | removing a present address makes the list strictly shorter |
| VtyUtils.WithoutAppend | udpfwd/src/cli/udpfwd_vty_utils.c:379-383 | removal works entry by entry, so the survivors keep their relative order |
| VtyUtils.ServerUpdate | udpfwd/src/cli/udpfwd_vty_utils.c:314-402 | adding gives the old list with the address appended; removing gives the old list without every copy of the address |
| VtyUtils.RoomLeft | udpfwd/src/cli/udpfwd_vty_utils.c:379-383 | a survivor still to be copied has a place left in the new list |
| VtyUtils.FoundAfterAdd | udpfwd/src/cli/udpfwd_vty_utils.c:348-357 | after an add the address is found in the row |
| VtyUtils.FoundAfterRemove | udpfwd/src/cli/udpfwd_vty_utils.c:373-383 | after a remove the address is no longer found, and every other address is found exactly when it was before |
| SourceInterface.VrfRow.constructor | apps/sourceinterface/src/cli/source_interface_selection_vty.c:274-289 | a VRF row holds exactly the given `source_ip` map and `source_interface` entries |
| SourceInterface.VrfRow.UpdateSourceIp | apps/sourceinterface/src/cli/source_interface_selection_vty.c:274-289 | adding replaces the protocol's source-IP entry, removing deletes it; the source-interface entries are untouched |
| SourceInterface.VrfRow.UpdateSourceInterface | apps/sourceinterface/src/cli/source_interface_selection_vty.c:303-365 | adding appends the (key, port) pair after the existing entries; removing from a single-entry column empties it whatever the key, otherwise it keeps exactly the entries whose key does not start with the protocol key; `source_ip` is untouched |
| SourceInterface.Unbound | apps/sourceinterface/src/cli/source_interface_selection_vty.c:340-351 | no surviving entry's key starts with the protocol key |
| SourceInterface.CopyAppended | apps/sourceinterface/src/cli/source_interface_selection_vty.c:309-321 | the copy into an array one longer is the old entries followed by the new pair |
| SourceInterface.CopyUnbound | apps/sourceinterface/src/cli/source_interface_selection_vty.c:336-351 | with exactly one matching entry, the copy into an array one shorter holds exactly the non-matching entries, in order |
| SourceInterface.UnboundCount | apps/sourceinterface/src/cli/source_interface_selection_vty.c:336-351 | survivors plus matches account for every entry, so one match leaves room for exactly the survivors |
| SourceInterface.UnboundAppend | apps/sourceinterface/src/cli/source_interface_selection_vty.c:340-351 | removal and the match count work entry by entry over a concatenation |
| SourceInterface.UnboundRoom | apps/sourceinterface/src/cli/source_interface_selection_vty.c:340-351 | a survivor still to be copied has a place left in the shorter array |
| SourceInterface.UnboundKeeps | apps/sourceinterface/src/cli/source_interface_selection_vty.c:340-351 | removal keeps every entry of another key as often as it occurred and drops every entry of the protocol |
| SourceInterface.MatchCountZero | apps/sourceinterface/src/cli/source_interface_selection_vty.c:241-247 | no entry matches the key exactly when the match count is zero |
| SourceInterface.FirstBinding | apps/sourceinterface/src/cli/source_interface_selection_vty.c:98-108 | the index found is the first entry whose key starts with the protocol key; none is found exactly when no entry's key does |
| SourceInterface.NoneLeftAfterRemoval | apps/sourceinterface/src/cli/source_interface_selection_vty.c:336-351 | after the removal no entry of the protocol is found |
| SourceInterface.FirstBindingAppended | apps/sourceinterface/src/cli/source_interface_selection_vty.c:309-321 | an appended pair is found at its new position when no earlier entry has the protocol's key |
| SourceInterface.ConfiguredSource | apps/sourceinterface/src/cli/source_interface_selection_vty.c:68-118 | a protocol reports SOURCE_IP exactly when its key is in `source_ip` (with that value) and SOURCE_INTERFACE exactly when it is not but some entry's key starts with it (with that entry's port); an unknown protocol or a missing VRF reports nothing |
| SourceInterface.ConfiguredParts | apps/sourceinterface/src/cli/source_interface_selection_vty.c:96-117 | a protocol has no configuration exactly when it has neither a source-IP entry nor a matching source-interface entry |
| SourceInterface.GetConfiguredProtocolSource | apps/sourceinterface/src/cli/source_interface_selection_vty.c:68-118 | the map lookup and the scan loop return exactly `ConfiguredSource` |
| SourceInterface.FirstBindingAt | apps/sourceinterface/src/cli/source_interface_selection_vty.c:100-108 | the scan stops at the first matching entry |
| SourceInterface.GetProtocolSourceLocal | apps/sourceinterface/src/cli/source_interface_selection_vty.c:135-150 | the method returns exactly `ProtocolSource`: the protocol's own configuration, else the common one |
| SourceInterface.FallbackToAll | apps/sourceinterface/src/cli/source_interface_selection_vty.c:135-150 | a protocol's own configuration wins; without one, a protocol other than "all" falls back to the common configuration; "all" and an unknown protocol report the common configuration |
| SourceInterface.SourceInterfaceLookup | apps/sourceinterface/src/cli/source_interface_selection_vty.c:232-260 | with no default VRF it prints the VRF error and finds nothing; otherwise it prints nothing and finds a match exactly when some entry's key starts with the key |
| SourceInterface.ProtocolByOwnKey | apps/sourceinterface/src/cli/source_interface_selection_vty.c:690-705 | each protocol's own key selects that protocol |
| SourceInterface.MaskPosition | apps/sourceinterface/src/cli/source_interface_selection_vty.c:386-388 | the position found by `strchr` holds the first '/' of the address |
| SourceInterface.ExactIsStrnEq | apps/sourceinterface/src/cli/source_interface_selection_vty.c:389-390 | a source equal to the address part also passes the prefix comparison the code makes |
| SourceInterface.AsWrittenAcceptsExtension | apps/sourceinterface/src/cli/source_interface_selection_vty.c:376-412 | as written, any source that merely starts with a port's address part counts as configured although it is a different address |
| SourceInterface.AsWrittenAcceptsLongerAddress | apps/sourceinterface/src/cli/source_interface_selection_vty.c:376-412 | "10.0.0.12" counts as configured when a port has 10.0.0.1/24, although no port has that address |
| SourceInterface.MaskOfAddress | apps/sourceinterface/src/cli/source_interface_selection_vty.c:386-388 | in "10.0.0.1/24" the '/' sits at position 8 |
| SourceInterface.SecondaryHas | apps/sourceinterface/src/cli/source_interface_selection_vty.c:398-408 | the secondary-address loop finds a match exactly when the source equals the address part of some secondary address |
| SourceInterface.IsIpConfigured | apps/sourceinterface/src/cli/source_interface_selection_vty.c:376-412 | (corrected) true exactly when some port has the source as the address part of its primary address or, for a port without one, of a secondary address |
| SourceInterface.PortNamed | apps/sourceinterface/src/cli/source_interface_selection_vty.c:423-437 | (corrected) the port returned has exactly the asked name and an address; none is returned exactly when no such port exists |
| SourceInterface.PortNamedAsWritten | apps/sourceinterface/src/cli/source_interface_selection_vty.c:423-437 | as written the port returned has an address and a name that merely starts with the asked one |
| SourceInterface.AsWrittenPicksLongerName | apps/sourceinterface/src/cli/source_interface_selection_vty.c:428-436 | asking for interface "1" returns port "10" when that port comes first, where the exact match returns port "1" |
| SourceInterface.GetPort | apps/sourceinterface/src/cli/source_interface_selection_vty.c:423-437 | the loop returns exactly `PortNamed` |
| SourceInterface.SetSourceIp | apps/sourceinterface/src/cli/source_interface_selection_vty.c:450-511 | without a transaction or VRF row it fails and changes nothing; an address configured on no port prints "not configured" and changes nothing; otherwise the protocol's source-IP becomes the address, its source-interface entry is removed, the protocol then reports that address, and the code follows the commit status; the column keeps `KeyedOnce`. It looks the address up with the corrected `SourceInterface.IsIpConfigured`, where the C calls the `strncmp` version |
| SourceInterface.UnboundNoMatch | apps/sourceinterface/src/cli/source_interface_selection_vty.c:241-247 | without a matching entry the removal would keep every entry, so skipping it changes nothing |
| SourceInterface.SetSourceInterface | apps/sourceinterface/src/cli/source_interface_selection_vty.c:523-584 | without a transaction or VRF row it fails and changes nothing; an interface without an address prints "No IP address is configured" and changes nothing; otherwise the protocol's source-IP entry is removed and the pair is appended, and a protocol without an earlier entry then reports that interface; the number of the protocol's entries grows by one, so the column keeps `KeyedOnce` exactly when there was none. It looks the port up with the corrected `SourceInterface.GetPort`, where the C calls the prefix-matching version |
| SourceInterface.ResetSourceInterface | apps/sourceinterface/src/cli/source_interface_selection_vty.c:596-683 | an unknown protocol fails with its message and changes nothing; otherwise both kinds of entry of the protocol are removed, it then reports nothing, and the "not configured" message is printed exactly when it had no configuration before; the column keeps `KeyedOnce` |
| SourceInterface.ConfigLine | apps/sourceinterface/src/cli/vtysh_ovsdb_source_interface_context.c:48-78 | a protocol contributes at most one running-config line, and none exactly when it has no own configuration |
| SourceInterface.RunningConfig | apps/sourceinterface/src/cli/vtysh_ovsdb_source_interface_context.c:87-103 | nothing without a VRF row, otherwise at most one line for each of the four protocols |
| SourceInterface.ConfigLineForms | apps/sourceinterface/src/cli/vtysh_ovsdb_source_interface_context.c:63-75 | a source address shows as "ip source-interface <protocol> <address>", a source interface as "ip source-interface <protocol> interface <port>" |
| SourceInterface.NoInheritedLine | apps/sourceinterface/src/cli/vtysh_ovsdb_source_interface_context.c:48-78 | a protocol that only inherits the common source has no line of its own, though the common source is what it uses |
| SourceInterface.RunningConfigCount | apps/sourceinterface/src/cli/vtysh_ovsdb_source_interface_context.c:87-103 | the running config has one line per protocol with its own configuration |
| SourceInterface.TftpAddressLine | ops-tests/component/test_vtysh_ct_source_interface_selection.py:121-124 | after "ip source-interface tftp 2.2.2.2" the running config holds "ip source-interface tftp 2.2.2.2" |
| SourceInterface.MatchCountSteps | apps/sourceinterface/src/cli/source_interface_selection_vty.c:303-365 | appending an entry of a key adds one to the number of entries of that key; removing the key's entries leaves none |
| SourceInterface.ReSetKeepsFirst | apps/sourceinterface/src/cli/source_interface_selection_vty.c:563-571 | setting a protocol's interface twice, with no entry before, leaves two entries of its key, and the lookup still finds the first |
| DiagCommands.Put | diagtools/src/cli/ping_handler.c:94 | one `snprintf` onto the command line appends exactly that argument's text |
| DiagCommands.PutMaybe | diagtools/src/cli/ping_handler.c:83-88 | a guarded `snprintf` appends the argument exactly when its condition holds |
| DiagCommands.PingWithDefaults | diagtools/src/cli/ping_handler.c:91-115 | the request after the handler: count and size replaced by their defaults when zero, the timeout likewise for IPv4 only, every other field unchanged |
| DiagCommands.PingEntry.constructor | diagtools/src/cli/ping_handler.c:40 | the ping request structure holds exactly the given request |
| DiagCommands.PingMain | diagtools/src/cli/ping_handler.c:40-146 | without a display callback or a request nothing is built and false is returned; otherwise the command line is `PingCommand` of the request as passed, the request afterwards is `PingWithDefaults` of it, and a pipe that fails to open gives false and "Internal error" |
| DiagCommands.BuildPingCommand | diagtools/src/cli/ping_handler.c:60-131 | the `snprintf` sequence builds exactly `PingCommand`: namespace helper, namespace, ping4 or ping6, the markers and the arguments in order |
| DiagCommands.PutPingFront | diagtools/src/cli/ping_handler.c:82-88 | appends "-b " for a broadcast request and then the target when there is one |
| DiagCommands.PutPingSizes | diagtools/src/cli/ping_handler.c:90-100 | appends "-c" and "-s" with the given values |
| DiagCommands.PutPingExtras | diagtools/src/cli/ping_handler.c:102-108 | appends "-i" for a nonzero interval and "-p" for a fill pattern |
| DiagCommands.PutPingIpv4 | diagtools/src/cli/ping_handler.c:110-129 | appends "-W", "-Q" for a nonzero type of service, and the record option |
| DiagCommands.PutIpOption | diagtools/src/cli/ping_handler.c:122-128 | appends at most one of "-T tsonly", "-T tsandaddr" and "-R", in that order of precedence |
| DiagCommands.PingCountAndSize | diagtools/src/cli/ping_handler.c:90-100 | count and size appear exactly once each, next to each other right after the broadcast flag and target, with zero replaced by the default |
| DiagCommands.NoSizesAfter | diagtools/src/cli/ping_handler.c:102-129 | no argument after count and size is another count or size |
| DiagCommands.PingBroadcastArg | diagtools/src/cli/ping_handler.c:83-84 | "-b" appears exactly for a broadcast request |
| DiagCommands.PingIntervalArg | diagtools/src/cli/ping_handler.c:103-104 | "-i" appears for a nonzero interval, and only ever carrying that interval |
| DiagCommands.PingPatternArg | diagtools/src/cli/ping_handler.c:107-108 | "-p" appears when a fill pattern is given, and only ever carrying that pattern |
| DiagCommands.PingTosArg | diagtools/src/cli/ping_handler.c:119-120 | "-Q" appears for a nonzero type of service over IPv4, and only then, carrying that value |
| DiagCommands.PingIpv4Only | diagtools/src/cli/ping_handler.c:111-129 | an IPv6 ping has no timeout, type of service or record option; an IPv4 ping always has the timeout, defaulted |
| DiagCommands.PingOneIpOption | diagtools/src/cli/ping_handler.c:122-128 | at most one record option appears: for IPv4 the one the precedence picks, for IPv6 none |
| DiagCommands.FrontNoIpOptions | diagtools/src/cli/ping_handler.c:82-108 | no argument before the IPv4 part is a record option |
| DiagCommands.Ipv4Options | diagtools/src/cli/ping_handler.c:110-129 | the record options of the IPv4 part are exactly the one the precedence picks |
| DiagCommands.IpOptionsAppend | diagtools/src/cli/ping_handler.c:60-131 | the record options of two runs of arguments are those of the first followed by those of the second |
| DiagCommands.NoIpOptions | diagtools/src/cli/ping_handler.c:82-120 | a run with no record option among its arguments contributes none |
| DiagCommands.IpOptionsSelf | diagtools/src/cli/ping_handler.c:122-128 | a run of at most one record option is its own list of record options |
| DiagCommands.PingDefaultsSettle | diagtools/src/cli/ping_handler.c:91-115 | with nonzero defaults, writing them back twice equals once, and the completed request builds the same command line as the original |
| DiagCommands.TraceWithDefaults | diagtools/src/cli/traceroute_handler.c:89-124 | the request after the handler: port, maximum TTL, probes and wait replaced by their defaults when zero, minimum TTL likewise for IPv4 only, every other field unchanged |
| DiagCommands.TracerouteEntry.constructor | diagtools/src/cli/traceroute_handler.c:40 | the traceroute request structure holds exactly the given request |
| DiagCommands.TracerouteHandler | diagtools/src/cli/traceroute_handler.c:40-152 | without a display callback or a request nothing is built and false is returned; otherwise the command line is `TraceCommand` of the request as passed, the request afterwards is `TraceWithDefaults` of it, and a pipe that fails to open gives false and "Internal error" |
| DiagCommands.BuildTraceCommand | diagtools/src/cli/traceroute_handler.c:59-136 | the `snprintf` sequence builds exactly `TraceCommand` |
| DiagCommands.PutTraceCore | diagtools/src/cli/traceroute_handler.c:89-115 | appends "-p", "-m", "-q" and "-w" with the given values, in that order |
| DiagCommands.PutTraceIpv4 | diagtools/src/cli/traceroute_handler.c:117-134 | appends "-f", then "-g" when a loose source route is given |
| DiagCommands.TraceOrder | diagtools/src/cli/traceroute_handler.c:84-134 | the target (when set) comes first, then port, maximum TTL, probes and wait with zero replaced by the default; IPv6 stops there; IPv4 adds the minimum TTL, then the loose source route exactly when one is given |
| DiagCommands.TraceDefaultsSettle | diagtools/src/cli/traceroute_handler.c:89-124 | with nonzero defaults, writing them back twice equals once, and the completed request builds the same command line as the original |

## Left out

- The daemons' main loops, command-line options, `unixctl` registration and argument parsing, and OVSDB registration, row iteration and transactions. OVSDB rows and their change flags are parameters of the model.
- Concurrency: the receiver thread and the semaphore that guards the tables. This includes the lock that `udpfwd/src/udpfwd_xmit.c:157-163` leaves held when an interface has no helper address.
- Sockets, `sendmsg`/`recvmsg`, ARP and the `SIOCSARP` ioctl. A send is an output event of the model.
- Operating-system interface queries (MAC, addresses, `if_indextoname`, interface index) and `inet_pton` / `inet_aton`. They are function parameters.
- The address-class macros (`IS_VALID_IPV4` and the like). They are one uninterpreted classify parameter.
- `popen` / `pclose` / `setns` of the diagnostics CLI and the tool output streamed back to the terminal. The truncation of the command buffer at `BUFSIZ` by `snprintf` is not modelled.
- The `PING_*` / `TRACE_*` defaults and `DEFAULT_VRF_NAME`. They are parameters.
- `run_stats_update` and the per-interface counters. The counter record is a parameter.
- `udp_bcast_forwarder_server_config_update` (`udpfwd/src/udpfwd.c:475-520`) is not part of this model.
- The relay copy's `dhcp_relay_server_config_update` (`relay/udpfwd/src/udpfwd.c:467-505`) dispatches as the `udpfwd/` copy does, but its handlers `udpfwd_handle_dhcp_relay_row_delete` and `udpfwd_handle_dhcp_relay_config_change(rec, idl_seqno)` are not part of this model. They are assumed to behave like the `udpfwd/` copy's, which `DaemonConfig.DhcpRelayServerConfigUpdate` models.
- The iteration order of `shash` / `cmap` is an `order` parameter. Hash collisions in the DHCPv6 `cmap` are not modelled: lookup is by exact key.
- The DHCPv6 multicast handlers, which are compiled out (`#if 0`).
- `malloc` failures, `VLOG` messages and the numeric values of the enums.
- `atoi` overflow of the CLI's port and count arguments, which is undefined in C.
- `udpfwd_setcommoncolumn` and `udp_bcast_config_vrf_lookup` are not part of this model.
- `print_proto_source`, `show_source_interface_selection` and the `DEFUN` wrappers that only print or dispatch.
- The running-config callbacks that only print a fixed line.
- VtyUtils.FindServerIp: the `int8_t` count of `find_udpfwd_server_ip` is modelled as a `nat`; the callers pass a row's address count, which stays at or below the per-interface maximum and so never reaches the `int8_t` limit.
- Checksum.InCksum: requires `len <= 0xffff`, so that the `int32_t` accumulator cannot overflow.
- DaemonConfig.DhcpRelayServerConfigUpdate: when a row was deleted, states only that the tables stay consistent, not which entries remain.
- VtyUtils.ServerUpdate: requires the address to be present for a removal, as its callers check first. The C sizes the removal buffer as `IPADDRESS_STRING_MAX_LENGTH * (serverCount - 1)` bytes but fills it with `char *` pointers. With an absent address it copies all `serverCount` pointers, which overruns the buffer only at one or two entries (with 8-byte pointers). At zero entries the `size_t` size wraps around. Neither case is modelled.
- SourceInterface.VrfRow.UpdateSourceInterface: requires, for a removal, a single entry or exactly one matching entry, as the C's buffer sizing assumes. Its callers check only that at least one entry matches. The single match holds while the column keeps `KeyedOnce`, which `SourceInterface.SetSourceIp` and `SourceInterface.ResetSourceInterface` preserve.
- SourceInterface.IsIpConfigured: requires every port address to carry a '/' (`CidrForm`). For an address without one, `strchr` returns NULL and the C's offset computation is undefined.
- SourceInterface.SetSourceIp: requires at most one source-interface entry for the protocol (`KeyedOnce`), and every port address to carry a '/' (`CidrForm`), as `isIpConfigured` does.
- SourceInterface.ResetSourceInterface: requires at most one source-interface entry for the protocol (`KeyedOnce`).
- SourceInterface.SetSourceInterface: a second set for a protocol that already has an entry appends a second entry of the same key, as the C's arrays do (`SourceInterface.ReSetKeepsFirst`). The column then no longer keeps `KeyedOnce`, and the new interface is reported only when there was no earlier entry. How OVSDB's `ovsrec_vrf_set_source_interface` settles two entries of one key is not modelled.

## Findings

| source | as written | input that shows it | evidently intended | confidence | as-written member | corrected member |
|---|---|---|---|---|---|---|
| udpfwd/include/dhcp_relay.h:38 | `DHCPOPTLEN` reads the option length through a `char *`, which is signed, so a length of 128 or more becomes negative when `dhcpScanOpt` (`udpfwd/src/udpfwd_util.c:205`) adds it to the offset | an option with tag 1 and length 0xfe at offset 0: the signed next offset is 0 again, where the unsigned one is 256 | the length is an unsigned octet (RFC 2132, section 2) and each step moves past the option | not executed | OptionScan.SignedLengthStalls | OptionScan.NextOption |
| udpfwd/src/udpfwd_util.c:252-275 | with option overload 3 both `useFile` and `useSname` are set, but the `if (useFile) … else if (useSname)` chain searches only `file` | a 300-byte message whose options carry overload 3 and whose message-type option 53 sits only in `sname`: the search returns nothing | overload 3 means both fields carry options (RFC 2132, section 9.3), so both are searched | not executed | OptionScan.OverloadBothMissesSname | OptionScan.DhcpPickupOptBothFields |
| udpfwd/src/dhcp_options.c:362-376 | after `memmove` copies a kept option down to `sp`, both cursors advance by `option_parser_ptr[1] + 2`, re-reading the length at the read cursor from the bytes the move may have overwritten | a stripped agent option followed by option 12 with length 3 "abc": both cursors advance by 100 bytes, to 100 and 102, instead of by 5 | both cursors move past the option that was copied, by its length before the move | not executed | Option82Rewrite.MemmoveOverwritesLength | Option82Rewrite.CopyOption |
| udpfwd/src/udpfwd_config.c:451-485 | the configuration change removes the servers of an interface, which frees the interface node when its last server goes, and then adds the new servers to the freed node | an interface holding only 0.0.0.1 reconfigured to 0.0.0.2: the new server entry is counted but no interface points at it | the new servers are added to the interface, whose node is created again if it was freed | not executed | UdpfwdConfig.ConfigChangeAsWrittenStrandsEntry | UdpfwdConfig.ConfigChange |
| udpfwd/src/udpfwd_config.c:360-376 | the row delete loops over `intf->serverArray[iter]` while each removal swaps the last slot into the removed one and shrinks the count | an interface with two servers: the second removal reads a slot past the shrunk count | every server of the interface is removed | not executed | ServerTables.RowDeleteTwoServers | ServerTables.RemoveInterfaceServers |
| relay/dhcpv6r/src/dhcpv6_relay_config.c:466-482 | the flush of removed unicast servers compares the cached server with `rec->ipv6_ucast_server[iter]`, the cache index, instead of `[iter1]`, the row index | cache [2001::2], row [2001::1, 2001::2]: after the change only 2001::1 is kept | a cached server stays exactly when the row still lists it | not executed | Dhcpv6RelayConfig.ConfigChangeAsWrittenDropsListed | Dhcpv6RelayConfig.FlushRemovedUcastEntries |
| relay/dhcpv6r/src/dhcpv6_relay_config.c:51-64 | `compare_server` compares with `strncmp` over `strlen(ip1)`, so a cached address that is a prefix of the new one counts as the same server | cache [2001::1], row [2001::10]: the change leaves the cache unchanged | two servers are the same when their whole addresses match | not executed | Dhcpv6RelayConfig.ConfigChangeAsWrittenIgnoresLonger | Dhcpv6RelayConfig.AddedFoldHolds |
| udpfwd/src/udpfwd.c:290-328 | in the `udpfwd/` copy the option-82 policy and remote-id are parsed from the row but never stored in the control block | policy "drop", remote-id "ip": the control block keeps its previous values | the parsed values are stored, as the `relay/udpfwd/` copy does | not executed | DaemonConfig.UdpfwdOption82NeverStored | DaemonConfig.ControlBlock.UpdateOption82Policy |
| apps/sourceinterface/src/cli/source_interface_selection_vty.c:376-412 | `isIpConfigured` compares the requested source with a port address using `strncmp` over the length of the port address before its mask | port address 10.0.0.1/24, source "10.0.0.12": accepted as configured | the source must equal an address configured on a port | not executed | SourceInterface.AsWrittenAcceptsLongerAddress | SourceInterface.IsIpConfigured |
| apps/sourceinterface/src/cli/source_interface_selection_vty.c:423-437 | `getPort` compares port names using `strncmp` over `strlen(if_name)`, so the first port whose name starts with the requested name is returned | ports "10" then "1", asking for "1": port "10" is returned | the port whose name equals the requested one | not executed | SourceInterface.AsWrittenPicksLongerName | SourceInterface.GetPort |
| udpfwd/src/udpfwd_config.c:393-485 | the removed and the added addresses are collected into `uint32_t servers[MAX_UDP_BCAST_SERVER_PER_INTERFACE]` (16 entries), and the loops over them stop at the first 0 entry | a full interface (eight helper and eight forwarded addresses) and a row that lists none of them: all sixteen are stale, no 0 entry follows, and the removal loop reads `servers[16]`; a row with more than sixteen new addresses writes past the array | every collected address is passed on and no access leaves the array | not executed | UdpfwdConfig.EmptiedRowOverruns | UdpfwdConfig.ConfigChange |
