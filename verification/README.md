# A verified model of wireguard-go's core algorithms

This project models, in Dafny, the algorithms of a WireGuard implementation in Go that are
hardest to get right, and proves what they are for:

- the **allowed-IPs table**: two path-compressed radix tries changed in place, proved to be
  the plain longest-prefix-match map after every history of operations, and canonical;
- the **GRO/GSO engine and the Internet checksum**: merging a batch of packets in place and
  cutting super-packets apart, proved to merge every packet that can be merged, to lose nothing
  and to give back what was merged, on top of a proof that the unrolled native-endian checksum
  is the sum of section 2 of RFC 1071;
- the **session keys**: the Noise IKpsk2 handshake, the three keypair slots and the index
  table of a device with any number of peers, with an invariant that every operation keeps,
  an honest run that ends in agreement, and transcripts that follow the Noise pattern and bind
  what went into them;
- the **replay window** of section 2 of RFC 6479, refined to a set of counters from any
  (dirty) ring;
- **nonces and staging**: every interleaving of senders on one counter, and the queue that
  feeds them;
- **UDP batching**, the **handshake rate limiter**, **TAI64N stamps** and the management
  layer's **session lock**.

`dafny verify dfyconfig.toml` checks everything.

## How the model is built

| file | contents |
|---|---|
| Basics.dfy | words, bytes, `Option`, concatenation |
| PrefixSets.dfy, TrieGraph.dfy | prefixes as bit strings; what the pointers of a trie must be, and the pure effect of each pointer change on them |
| AllowedIPsTable.dfy, TrieShape.dfy, AllowedIPsRuns.dfy | the table itself on the heap; canonicity and size; whole histories |
| Checksum.dfy, Packet.dfy | the checksum; header fields and checksum validity |
| Gso.dfy, VirtioRead.dfy | gsoSplit and gsoNoneChecksum; what is done with a packet read from the device |
| GroPackets.dfy, GroCandidates.dfy | which packets GRO considers; these packets built from their parts |
| GroRuns.dfy, GroState.dfy, GroChoice.dfy | when two packets merge; the invariant of a GRO pass; where each packet of a batch goes |
| Gro.dfy, GroAccounting.dfy, GroRoundTrip.dfy | the pass; the accounting; reading back what was written |
| NoiseCrypto.dfy, Sessions.dfy, NoiseProtocol.dfy, HonestRun.dfy, DeviceRuns.dfy | primitives and KDFs; the index-table invariant; the device; agreement; whole histories |
| NoiseTranscripts.dfy | the transcripts against the Noise pattern IKpsk2, and what they bind |
| Replay.dfy, Nonces.dfy, Staging.dfy | the replay filter; the nonce counter; the staged queue |
| Datagrams.dfy, SplitMessages.dfy | coalescing and splitting of UDP messages |
| Ratelimiter.dfy, Tai64n.dfy, SessionLock.dfy | the limiter; the stamps; the session lock |

Choices that a reader should know:

- Addresses and 64-bit bitmap words are sequences of bits, packets sequences of bytes. Machine
  integers are mathematical ones with their bounds written out: 16-bit products and lengths in
  GRO and GSO, 64-bit additions with their carry, the wrap-around of the nonce counter, of
  sequence numbers and of IPv4 identifications are all explicit.
- The trie is a heap structure with parent pointers. The per-peer lists of nodes are one map
  of the table instead of a field of each peer, and the pointer to a pointer by which a node
  knows its place is a `Parent` value that names the owner and the bit. `insert` masks the
  caller's address in place through the slice it shares with the new node; the model goes on
  with the masked bits, and `AllowedIPsTable.MaskIsHarmless` says why that changes nothing.
- The TCP and the UDP flow table of GRO are one table here; its keys tell the protocol.
  A buffer is the packet at the offset, the capacity and the virtio header before the packet.
- Cryptographic primitives are the fields of a datatype, so everything holds for all of them.
  The honest run asks for two laws, that Diffie-Hellman commutes and that open undoes seal.
  What transcripts bind is said for two runs whose own hash and HMAC inputs do not collide: no
  function to 32 bytes is free of collisions on all inputs. Random indices, ephemeral keys,
  stamps and clock readings are parameters. The KDFs write into arrays that may be the ones
  their key is in.
- Where the packets of a batch go is said of the packets, their buffers' capacities and the
  offset alone (`GroChoice.Chosen`). Packets can be merged if they form a run, by flow, headers,
  options, sequence numbers, sizes, PSH and checksums, and the merged packet fits into the buffer
  of the first one with the offset counted twice, as the source has it. A packet goes to the
  newest group that it can join when it comes, for TCP at either end and for UDP at the end of
  the newest group of its flow, and to a buffer of its own only if there is none.
- A few methods take a `ghost` parameter that names the one object they may change.

When there are more segments than output buffers, `gsoSplit` returns one less than the number
of buffers it has filled, although its comment promises that number
(tun/offload_linux.go:890-917); the model follows the code.

Places where a property needed an exact condition:

- `splitCoalescedMessages` does not cut off the first slice at the number of bytes received
  (conn/bind_std.go:518-530). It delivers exactly the datagrams if and only if the reported
  segment size is at most that number (`SplitMessages.SlicesArePieces`, with an example in
  `SplitMessages.SegmentSizeTooLarge`).
- An empty buffer at the end of a coalesced message cannot be recovered by the receiver; a
  message gives back its datagrams if and only if it has only one or the last one is not empty
  (`Datagrams.MessageRecovers`).
- Index 0 also means that there is no index, but may be drawn, and `CreateMessageInitiation`
  and `CreateMessageResponse` delete the old index before they draw a new one. They keep the
  index table consistent if and only if the index drawn is not 0 and, when the random source
  fails, the handshake is left with the index 0 (`Sessions.NewHandshakeIndex`,
  `Sessions.LostIndex`): the first leaves it with the old index, the second with what the
  failing source returned.
- `Start` and `ExpireCurrentKeypairs` reset the gate of `SendHandshakeInitiation`, and a
  message is stamped some time after it passed. Two initiations can then carry one stamp, and
  the second is taken for a replay (`Tai64n.ResetReplays`, `Tai64n.LateStampReplays`). All are
  accepted if and only if neighbours are stamped in different blocks (`Tai64n.SentAccepted`);
  without a reset and a late stamp that is so (`Tai64n.NoFalseReplay`).
- A TCP packet that is put in front of a group brings its own flags byte. PSH of the last packet
  of a group survives GRO and GSO if and only if that packet came after all others of its group
  (`GroRoundTrip.PartPsh`).
- `gsoNoneChecksum` completes a field at an odd offset only if its two bytes come out equal
  (`Gso.GsoNoneChecksum`).

## Model

| member | source | states |
|---|---|---|
| AllowedIPsTable.CommonBits | device/allowedips.go:35-56 | The number of leading bits two addresses share, and that the next bit differs, also across the two 64-bit halves of IPv6. |
| AllowedIPsTable.MatchIsPrefix | device/allowedips.go:88-89 | The test of the walks, common bits at least cidr, holds exactly if the one prefix contains the other. |
| AllowedIPsTable.Choose | device/allowedips.go:69-71 | The byte and shift kept in a node select the bit right after its prefix. |
| AllowedIPsTable.MaskIsHarmless | device/allowedips.go:124-149 | Masking the caller's address before it is compared with the occupant of the slot does not change where the two part. |
| AllowedIPsTable.Parting | device/allowedips.go:146-173 | The prefix length computed from the occupant is that of the longest common prefix of both nodes. |
| AllowedIPsTable.AllowedIPs.NodePlacement | device/allowedips.go:88-99 | Finds the node of exactly this prefix, or the node below which the prefix belongs and is not stored. |
| AllowedIPsTable.AllowedIPs.LookupFrom | device/allowedips.go:191-205 | The walk returns a longest match of the address among the stored prefixes, null only if none contains it. |
| AllowedIPsTable.AllowedIPs.Attach | device/allowedips.go:134-164 | A new node is hung into its slot, above the occupant if that lies below it; the invariant holds again and one prefix is added. |
| AllowedIPsTable.AllowedIPs.SplitSlot | device/allowedips.go:167-188 | A fork node is put into the slot with the occupant and the new node as its children; the invariant holds again and one prefix is added. |
| AllowedIPsTable.AllowedIPs.InsertFrom | device/allowedips.go:101-189 | Insertion keeps the invariant and is a map update at the prefix, whatever was stored. |
| AllowedIPsTable.AllowedIPs.Disown | device/allowedips.go:226-228 | The node leaves its peer's list and its prefix is no longer stored; only this node may now be superfluous. |
| AllowedIPsTable.AllowedIPs.Prune | device/allowedips.go:229-244 | Taking a peerless node with at most one child out leaves a trie with the same prefixes in which only its parent may be superfluous. |
| AllowedIPsTable.AllowedIPs.Collapse | device/allowedips.go:236-256 | After at most two nodes have left, no superfluous node remains and no prefix was lost. |
| AllowedIPsTable.AllowedIPs.RemoveNode | device/allowedips.go:226-257 | Removal deletes exactly this prefix and keeps the invariant. |
| AllowedIPsTable.AllowedIPs.Insert | device/allowedips.go:291-304 | Map update at the prefix, for both families. |
| AllowedIPsTable.AllowedIPs.Remove | device/allowedips.go:259-278 | Deletes the prefix only if it is stored for the given peer. |
| AllowedIPsTable.AllowedIPs.RemoveByPeer | device/allowedips.go:280-289 | Leaves exactly the prefixes of the other peers. |
| AllowedIPsTable.AllowedIPs.Lookup | device/allowedips.go:306-317 | The longest-prefix match among the stored prefixes. |
| AllowedIPsTable.AllowedIPs.EntriesForPeer | device/allowedips.go:213-224 | The callback is given prefixes of the peer, each once and nothing else; it refuses none but the last one, and unless it refuses that it has been given all of them. |
| AllowedIPsRuns.Run | device/allowedips.go:226-304 | After every sequence of Insert, Remove and RemoveByPeer the table is the map that the same operations make of the empty map. |
| AllowedIPsRuns.MatchIsUnique | device/allowedips_rand_test.go:60-68 | A longest-prefix match is unique, so Lookup agrees with a search of the plain map. |
| PrefixSets.PlaceAbove | device/allowedips.go:152-164 | Where the slots point after a prefix was put above the occupant of a slot. |
| PrefixSets.PlaceFork | device/allowedips.go:167-188 | Where the slots point after a fork and a new prefix were added. |
| PrefixSets.SpliceSlot | device/allowedips.go:236-240 | The slot of a removed prefix with one side empty points to what the other side pointed to. |
| TrieGraph.PlacedKeepsShape | device/allowedips.go:140-164 | Adding a node in its slot keeps every child and parent pointer right. |
| TrieGraph.ForkedKeepsShape | device/allowedips.go:167-188 | Adding a fork and a node keeps every child and parent pointer right. |
| TrieGraph.SplicedKeepsShape | device/allowedips.go:232-240 | Cutting a node out keeps every child and parent pointer right. |
| TrieShape.SoundIsCanonical | device/allowedips.go:101-189 | In a table that satisfies the invariant every child is the least key on its side and every peerless node has two children. |
| TrieShape.KeysAreClosure | device/allowedips.go:101-257 | The nodes are exactly the stored prefixes and the places where two of them part. |
| TrieShape.ShapeIsDetermined | device/allowedips.go:101-257 | Two tables with the same prefixes have the same nodes and corresponding pointers, whatever their histories. |
| TrieShape.TrieSize | device/allowedips.go:101-257 | At most 2n - 1 nodes for n prefixes of a family, and a nil root for none. |
| Checksum.OnesSumIsFold | tun/checksum.go:86-93 | The one's-complement sum, taken word by word with end-around carry, is the folded plain sum. |
| Checksum.Block | tun/checksum.go:15-34 | A chain of additions with deferred carry does not wrap when the last carry is added, and adds the words modulo 0xffff. |
| Checksum.LittleIsScaled | tun/checksum.go:10-12 | On a little-endian machine every sum is 256 times the wanted one modulo 0xffff. |
| Checksum.ChecksumNoFold | tun/checksum.go:9-84 | For every byte string, initial value and byte order the result is the initial value plus the sum of the big-endian words, as a one's-complement sum. |
| Checksum.FourFolds | tun/checksum.go:88-92 | Four folds bring every 64-bit sum to its 16-bit representative. |
| Checksum.ThreeFoldsDoNot | tun/checksum.go:88-91 | Three folds are not enough. |
| Checksum.Compute | tun/checksum.go:86-93 | The checksum is the folded sum of initial value and words. |
| Checksum.FoldedIsReference | tun/checksum.go:86-93 | What Compute returns is the one's-complement sum of the folded initial value and the words, each added with end-around carry; it is 0 exactly if the initial value and all bytes are 0. |
| Checksum.Chaining | tun/checksum.go:95-102 | Continuing from the sum of an even-length piece gives the sum of the concatenation. |
| Checksum.PseudoHeaderNoFold | tun/checksum.go:95-102 | The four chained calls give the sum of the whole pseudo header. |
| Packet.CheckValid | tun/offload_linux.go:388-398 | Decides whether pseudo header and transport part add up to 0xffff. |
| Gso.IPv4Header | tun/offload_linux.go:928-939 | Identification plus i, the new total length, a right header checksum, and nothing else changed. |
| Gso.ProductFits | tun/offload_linux.go:950 | The 16-bit product of the sequence computation does not wrap while the segment starts inside the packet. |
| Gso.ClearedBits | tun/offload_linux.go:952-956 | Of the eight flags exactly FIN and PSH are cleared, and no other bit changes. |
| Gso.TransportHeader | tun/offload_linux.go:946-960 | Sequence number and flags of the segment, UDP length; other bytes kept. What flags and sequence numbers mean over all segments is said in GsoSplit. |
| Gso.SealTransport | tun/offload_linux.go:965-970 | The stored checksum makes the segment valid. |
| Gso.GsoSplit | tun/offload_linux.go:893-975 | Segment i carries piece i of the payload, the header bytes of the super-packet, right lengths and checksums; too many segments exactly if there are more pieces than buffers. Each segment is full or what is left, IPv4 identifications count up by one and sequence numbers by the payload before, both wrapping around, and bit by bit all flags are kept but FIN and PSH, which only the last segment has. |
| Gso.PiecesJoin | tun/offload_linux.go:912-974 | The first k pieces are the first bytes of the payload, and all pieces together are the payload. |
| Gso.GsoNoneChecksum | tun/offload_linux.go:977-985 | The field gets the complement of the sum of its old value and the bytes from the start on. These then add up to 0xffff if and only if the field is aligned or its two bytes come out equal; the place of the field is computed in 16 bits. |
| Gso.PartialCompletes | tun/offload_linux.go:977-985 | If the field held the pseudo-header sum, the completed packet is valid. |
| VirtioRead.ParseHdrLen | tun/tun_linux.go:417-446 | Header lengths that are added up in 16 bits are accepted exactly if the whole transport header lies in the packet and, for TCP, has at least 20 bytes; a sum that wraps around never is. |
| VirtioRead.HandleVirtioRead | tun/tun_linux.go:375-449 | A packet without segmentation is passed on with its checksum completed, or refused exactly if it does not fit. A super-packet is refused exactly if its kind does not agree with the IP version or its transport header is not whole; otherwise it is split with the header length found in the packet, whatever the virtio header says. |
| GroPackets.ClassifyFacts | tun/offload_linux.go:532-580 | What holds of every packet that reaches a flow table: lengths, header sizes, flags, version. |
| GroCandidates.WholeIsCandidate | tun/offload_linux.go:747-823 | A packet put together from an IP header without options or fragmentation, a TCP header with ACK and perhaps PSH or a UDP header, and a payload is a candidate, and GRO reads its parts. |
| GroCandidates.Candidates | tun/offload_linux.go:747-823 | The candidates are exactly the packets that are put together in this way; UDP only if UDP may be merged. |
| GroCandidates.SameFlowParts | tun/offload_linux.go:85-95 | Two candidates have one flow key if and only if they agree on protocol, IP version, both addresses and both ports, and for TCP on the acknowledgement number. |
| GroRuns.RunLength | tun/offload_linux.go:349-358 | The payloads of a run are full segments and one last segment of at most that size. |
| GroRuns.CountersFit | tun/offload_linux.go:349-352 | The 16-bit count of merged packets and the 16-bit run length do not wrap when it matters: if the run has only full segments, the computed length is the true one. |
| GroRuns.ItemAppended | tun/offload_linux.go:475-506 | Appending under the conditions of the source gives an item that stands for the longer run: sizes, sequence numbers, headers, options, checksums, and PSH if and only if the new packet has it. |
| GroRuns.ItemPrepended | tun/offload_linux.go:450-474 | Prepending gives an item that stands for the run with the packet in front, with the larger segment size and without PSH. |
| GroState.NoopKeeps | tun/offload_linux.go:877-883 | Writing a packet on its own keeps the invariant of the pass. |
| GroState.InsertKeeps | tun/offload_linux.go:622-624 | A new table item keeps the invariant of the pass. |
| GroState.MergeKeeps | tun/offload_linux.go:603-607 | A merge, also one that exchanges two buffers, keeps the invariant of the pass. |
| GroState.DropKeeps | tun/offload_linux.go:608-614 | Deleting an item with an invalid checksum keeps the invariant of the pass. |
| GroState.QuietDrop | tun/offload_linux.go:610-614 | The buffer of a deleted item has a zero virtio header, as the accounting will not visit it. |
| GroChoice.ChosenStep | tun/offload_linux.go:861-888 | A packet that goes to the newest group it can join, or to a buffer of its own if there is none, extends the description of where all packets go. |
| GroChoice.OneEnd | tun/offload_linux.go:349-386 | A packet that can be put behind a group cannot be put in front of it. |
| GroChoice.JoinersTracked | tun/offload_linux.go:591-602 | Every group that a TCP packet can join has an item in the table of its flow, although items of bad packets are deleted. |
| GroChoice.InOrderMerges | tun/offload_linux.go:861-888 | If the packets of a batch can be merged in the order in which they came, they all are: only buffer 0 is written, and it holds the whole batch. |
| Gro.JoinSucceeds | tun/offload_linux.go:334-506 | A packet that can join the group of an item of its flow passes every test of the source: it is found adjacent on the right side, there is room, and the checksums are good. |
| Gro.Pass.CoalesceTCPPackets | tun/offload_linux.go:444-506 | The outcome in the order of the checks, the new buffers after append or prepend with exchange, the new item, and no packet beyond its capacity. |
| Gro.Pass.CoalesceUDPPackets | tun/offload_linux.go:414-438 | The same for UDP, with the checksum known to be invalid. |
| Gro.Pass.TryTCPItem | tun/offload_linux.go:600-620 | One comparison with an item: merged, deleted or unchanged, always within the invariant. If the packet is not merged, it cannot join the group of the item or its own checksum is bad. |
| Gro.Pass.TcpGRO | tun/offload_linux.go:531-625 | The search through the flow's items ends in a merge with the newest group that the packet can join, in a new item only if it can join none, or in a no-op only if its checksum is bad. |
| Gro.Pass.UdpGRO | tun/offload_linux.go:782-854 | The packet is merged with the last group of its flow if it can join that, and gets an item of its own only if it cannot: never a no-op. |
| Gro.Pass.ApplyCoalesceAccounting | tun/offload_linux.go:629-735 | Every written buffer is ready: a lone packet unchanged with a zero header, or an accounted super-packet with its header. |
| Gro.Pass.HandleGRO | tun/offload_linux.go:861-888 | Fails exactly for a small offset or an empty packet; otherwise the write list is strictly increasing, each input packet lies in exactly one written buffer, every written buffer is ready, and UDP flows keep their order. Every packet is merged with the newest group that it can join when it comes, and is alone only if it can join none; a batch that is a run in the order of arrival leaves as one packet in buffer 0. |
| Gro.UdpPair | tun/offload_linux.go:828-853 | Two UDP packets of one flow leave in arrival order, from one buffer or from two buffers written in that order. |
| GroAccounting.AccountItem | tun/offload_linux.go:632-672 | New lengths, IPv4 header checksum, UDP length, the folded pseudo-header sum in the checksum field and the virtio header; nothing else changes. |
| GroAccounting.AccountedWellFormed | tun/offload_linux.go:633-639 | The accounted packet with its header is a legal input of gsoSplit. |
| GroAccounting.AccountedCompletes | tun/offload_linux.go:659-672 | Once the partial checksum is completed the merged packet is valid. |
| GroRoundTrip.PayloadAt | tun/offload_linux.go:432-434 | Cutting the joined payloads of a run every gsoSize bytes recovers them one by one. |
| GroRoundTrip.Reclassified | tun/offload_linux.go:85-95 | A packet with the stable header bytes of a candidate is a candidate of the same flow. |
| GroRoundTrip.PartIsPacket | tun/offload_linux.go:893-975 | Segment i of a written super-packet has flow, sequence number, payload, compared header fields and options of packet i of the run, and right lengths and checksums, and PSH if and only if that packet had it and was the last to come. |
| GroRoundTrip.PartPsh | tun/offload_linux.go:450-495 | The flags of a segment: ACK, and PSH if and only if its packet had it and the last packet of the group came after all others. |
| GroRoundTrip.SplitWritten | tun/offload_linux.go:861-975 | gsoSplit makes of a written super-packet exactly as many segments as packets were merged, and segment i carries the message of packet i. |
| GroRoundTrip.ReadWritten | tun/tun_linux.go:375-449 | Reading what GRO wrote: a lone packet comes back as it was, and a super-packet is accepted and comes back as the packets that were merged, one by one and in order, unless there are too few buffers. |
| NoiseCrypto.KDF1 | device/noise-helpers.go:43-46 | The first block of HKDF (sections 2.2 and 2.3 of RFC 5869), also if the output array holds the key. |
| NoiseCrypto.KDF2 | device/noise-helpers.go:48-54 | The first two blocks of HKDF of the old key, also if an output array holds the key. |
| NoiseCrypto.KDF3 | device/noise-helpers.go:56-63 | The first three blocks of HKDF of the old key, also if an output array holds the key. |
| NoiseCrypto.SharedSecret | device/noise-helpers.go:100-108 | Reports an error exactly for the all-zero secret. |
| Sessions.IndexTable.NewIndexForHandshake | device/indextable.go:58-92 | Takes the first drawn index that is not in use and registers the handshake under it; fails, changing nothing, exactly if the random source does not yield one. |
| Sessions.IndexTable.SwapIndexForKeypair | device/indextable.go:44-56 | A registered index keeps its peer and now names the keypair; an unknown one changes nothing. |
| Sessions.NewHandshakeIndex | device/noise-protocol.go:327-333 | Replacing a peer's handshake index keeps table and peers consistent if and only if the new index is not 0. |
| Sessions.LostIndex | device/noise-protocol.go:453-460 | If the random source fails after the old index was deleted, table and peers stay consistent if and only if the handshake is left with the index 0. |
| Sessions.BeginKeeps | device/noise-protocol.go:666-696 | Turning the handshake entry into a keypair entry and rotating, as initiator or responder, keeps table and peers consistent. |
| Sessions.ReceivedKeeps | device/noise-protocol.go:701-718 | Promoting the next keypair keeps table and peers consistent. |
| Sessions.ClearKeeps | device/peer.go:214-228 | Emptying the three slots keeps table and peers consistent. |
| Sessions.DropHandshake | device/peer.go:230-235 | Giving up the handshake index keeps table and peers consistent. |
| Sessions.PeerEntries | device/indextable.go:14-23 | In a consistent state the entries of a peer are exactly its handshake index and the indices of its occupied slots: none stale, none missing. |
| Sessions.PeerCount | device/indextable.go:14-23 | These indices are all different, so a peer has one entry per occupied slot and at most four. |
| Sessions.PeersDisjoint | device/indextable.go:14-23 | Different peers share no index. |
| NoiseProtocol.TableIsExact | device/indextable.go:14-23 | In every valid state of a device the table holds exactly the indices its peers occupy: none of them zero, one for each handshake index and occupied slot, at most four a peer, none shared by two peers. |
| NoiseProtocol.Device.NewPeer | device/peer.go:61-114 | A new peer, refused if the device is closed, its key is known or there are too many, occupies no index and starts with its own buffers, no stamp and an open gate; the invariant of the device holds. |
| NoiseProtocol.Device.Start | device/peer.go:173-212 | A peer that was not running on an open device runs, and its gate is reset; otherwise nothing changes. |
| NoiseProtocol.Device.Stop | device/peer.go:258-275 | A running peer stops and has no entry in the table any more; a stopped one is left alone. |
| NoiseProtocol.Device.SendHandshakeInitiation | device/send.go:98-127 | The gate lets an attempt pass exactly if RekeyTimeout has gone by since the last one; lastSentHandshake moves by the step of `Tai64n.GateNext`, and an initiation that passes carries its own stamp. |
| NoiseProtocol.Device.CreateMessageInitiation | device/noise-protocol.go:270-337 | Transcript and message of an initiation and a drawn index in place of the old one; fails exactly for a zero shared secret or a failing random source. The invariant of the device is kept if and only if the index is not 0, or on failure if the secret was zero or there was no index to lose. |
| NoiseProtocol.SealInitiation | device/noise-protocol.go:279-334 | The transcript mixed in place in the handshake's own buffers is the specified one. |
| NoiseProtocol.Device.OpenInitiation | device/noise-protocol.go:340-403 | The sender, transcript and stamp of an initiation that opens with this device's keys. |
| NoiseProtocol.Device.ConsumeMessageInitiation | device/noise-protocol.go:340-442 | Accepted exactly if recognised, newer than the last stamp and not part of a flood; the handshake then holds the transcript, and no index changes. |
| NoiseProtocol.Device.CreateMessageResponse | device/noise-protocol.go:444-510 | Transcript and message of a response, which is the second message of the Noise pattern (NoiseTranscripts.ResponseFollowsPattern), only after a consumed initiation; fails also for a zero shared secret or a failing random source. The invariant of the device is kept if and only if the index is not 0, or on a failing source if that returned 0. |
| NoiseProtocol.Device.SendHandshakeResponse | device/send.go:142-176 | The gate counts the response, and if one was created the session begins at once with the indices of the message. |
| NoiseProtocol.Device.ConsumeMessageResponse | device/noise-protocol.go:512-607 | Accepted exactly if the receiver index names a handshake that waits and the empty field opens; the handshake then holds the finished transcript, which binds all that went into it (NoiseTranscripts.ResponseBinds). |
| NoiseProtocol.Device.BeginSymmetricSession | device/noise-protocol.go:612-699 | Send and receive key by role. For the initiator the new keypair is the current one, none is next, and the previous one is the old next one or else the old current one; for the responder it is the next one, the current one stays, and none is previous. The table after rotation, and the invariant of the device. |
| NoiseProtocol.Device.ReceivedWithKeypair | device/noise-protocol.go:701-718 | Promotes the next keypair exactly if it is the one received with: it becomes the current one, the old current one becomes the previous one, and none is next; the invariant of the device holds. |
| NoiseProtocol.Device.ZeroAndFlushAll | device/peer.go:214-238 | Afterwards the peer has no entry in the table; the invariant of the device holds. |
| NoiseProtocol.Device.ExpireCurrentKeypairs | device/peer.go:240-257 | The handshake entry goes, the slots stay, the gate is reset, and current and next keypair are at the message limit. |
| NoiseTranscripts.InitiationFollowsPattern | device/noise-protocol.go:279-334 | An initiation is the first message of IKpsk2, processed token by token as section 5 of the Noise Protocol Framework says: e, es, s, ss and the payload. |
| NoiseTranscripts.ResponseFollowsPattern | device/noise-protocol.go:462-508 | A response is the second message, e, ee, se, psk and an empty payload. |
| NoiseTranscripts.InitiationBinds | device/noise-protocol.go:279-334 | Initiations that end in one transcript have the same static keys, ephemeral key, shared secrets, stamp and sealed fields, unless two of their hash inputs collide. |
| NoiseTranscripts.ResponseBinds | device/noise-protocol.go:462-508 | Responses that end in one transcript answer the same transcript with the same ephemeral key, shared secrets, preshared key and empty field, unless two of their hash inputs collide. |
| NoiseTranscripts.SessionBinds | device/noise-protocol.go:622-640 | Equal session keys come from the same chain key, ephemeral key, shared secrets and preshared key, unless two hash inputs collide. |
| HonestRun.InitiationAgrees | device/noise-protocol.go:340-403 | The responder recognises an honest initiation and arrives at the initiator's hash and chain key. |
| HonestRun.ResponseAgrees | device/noise-protocol.go:530-590 | The initiator accepts an honest response and arrives at the responder's hash and chain key. |
| HonestRun.Handshakes | device/noise-protocol.go:270-718 | After a whole honest run, with the confirmation by the first packet received, each side's current keypair has the other's receive key as send key and the other's local index as remote index, and none is next, whatever the two handshakes went through before. |
| HonestRun.Meet | device/noise_test.go:59-149 | Two new devices that add each other as peers end their first handshake with matching session keys and indices in their current keypairs, for all keys, stamps after the zero stamp and drawn indices other than 0. |
| DeviceRuns.Run | device/indextable.go:14-23 | After every sequence of operations on a new device (peers added, started, stopped and expired, messages sent and received, sessions begun and confirmed) the table is exact. |
| Replay.Filter.Reset | replay/replay.go:29-33 | One cleared word makes a valid empty filter of any ring. |
| Replay.Advanced | replay/replay.go:42-52 | Clearing at most the whole ring is enough however far the window moves. |
| Replay.Marked | replay/replay.go:56-61 | Setting the bit tells whether the counter was accepted before and disturbs no other counter in the window. |
| Replay.Filter.ValidateCounter | replay/replay.go:37-62 | Accepts exactly the counters below the limit, not accepted since the reset and at most 8128 behind the highest. |
| Replay.Run | replay/replay.go:29-62 | From any ring, after a reset, the answers of any sequence of calls are those of the set of accepted counters. |
| Replay.AcceptedAre | replay/replay.go:37-62 | The set holds exactly the counters that were reported as accepted. |
| Replay.ExactlyOnce | replay/replay.go:37-62 | Under any reordering within the window and any duplication each counter is delivered exactly once. |
| Nonces.StepKeeps | device/send.go:354-366 | No atomic step of a sender or of the expiry breaks the invariant, the Add does not wrap with up to 2^13 senders, and a counter at the limit stays there. |
| Nonces.NoNonceTwice | device/send.go:354-370 | Under every interleaving no nonce is issued twice, all are below the limit, and the counter exceeds the limit by at most the number of senders about to store. |
| Nonces.NoneAfterTheLimit | device/peer.go:249-256 | Once the limit was reached, by counting or by expiry, nothing is issued any more. |
| Staging.Peer.AssignNonces | device/send.go:350-372 | The in-place compaction keeps the elements that got a nonce in order and in front, with consecutive nonces, and moves the others. |
| Staging.Peer.StagePackets | device/send.go:318-335 | The container is queued; only a full queue loses its oldest container, to the pool. |
| Staging.Peer.TakeContainer | device/send.go:349-382 | The batch is the front of its container with consecutive nonces; leftovers are staged again and nothing is lost. |
| Staging.Peer.SendStagedPackets | device/send.go:337-402 | Terminates; the containers taken leave from the front of the queue, all of them or as long as there are nonces, one batch each and with consecutive nonces; what stays staged is the rest of the queue and then the elements left over. It stops only if the queue is empty, the device is down or no keypair is usable, which asks for one initiation; with a usable keypair, nonces to spare and the device up everything leaves. No element is lost. |
| Staging.Peer.FlushStagedPackets | device/send.go:404-417 | Everything staged goes to the pool, in order. |
| Datagrams.CoalesceMessages | conn/bind_std.go:450-498 | The datagrams are divided among the messages in order; a segment size is set once, on exactly the messages with more than one datagram; such a message has at most 64 and fits the payload limit and its buffer. The division is maximal: a message ends only if its last datagram is short, it has 64, or the next datagram is too long for the segment size, the payload limit or the buffer. |
| Datagrams.MessageRecovers | conn/bind_std.go:463-494 | Cutting a message at its segment size gives back its datagrams if and only if it is a single one or the last one is not empty. |
| Datagrams.BatchRecovers | conn/bind_std.go:450-498 | Non-empty buffers come out exactly as they went in. |
| SplitMessages.SlicesArePieces | conn/bind_std.go:518-534 | The slices are the datagrams if and only if the segment size is at most the number of bytes received. |
| SplitMessages.SegmentSizeTooLarge | conn/bind_std.go:518-530 | A message for which they differ. |
| SplitMessages.SplitOne | conn/bind_std.go:526-541 | Succeeds exactly if the write index does not pass the read index; then the slices are at the write positions with the sender's address, and no later message was touched. |
| SplitMessages.SplitCoalescedMessages | conn/bind_std.go:502-544 | Succeeds if and only if every message taken is readable and up to each of them at most as many packets are written as there are messages; reports a bad control exactly if that is what the first message that fails fails by. On success the first n messages are the slices of the original messages in order, and emptied messages cannot be taken twice. |
| SplitMessages.BatchFits | conn/bind_std.go:242-251 | Two messages of at most 64 slices each, read into the last two of 128 slots, are always split. |
| Ratelimiter.Ratelimiter.Allow | ratelimiter/ratelimiter.go:99-137 | The answer and the new entry of the address. |
| Ratelimiter.Ratelimiter.Cleanup | ratelimiter/ratelimiter.go:84-97 | Removes exactly the entries idle for more than a second. |
| Ratelimiter.AllowAgrees | ratelimiter/ratelimiter.go:99-137 | A packet is treated alike, and leaves the same entry, with and without forgotten entries. |
| Ratelimiter.Run | ratelimiter/ratelimiter.go:84-137 | Under a monotone clock any run of packets and cleanups gives the answers of a limiter that never forgets. A packet is allowed if and only if in every window that ends with it the packets allowed for its address, itself included, cost less than the burst plus the length of the window. |
| Ratelimiter.Spent | ratelimiter/ratelimiter.go:14-20 | From any sound state, the packets allowed for an address cost less than the tokens it had plus the time that goes by. |
| Ratelimiter.WindowBound | ratelimiter/ratelimiter.go:14-20 | In every window of every run the packets that were answered with true for an address cost less than the burst plus the length of the window. |
| Ratelimiter.TightestWindow | ratelimiter/ratelimiter.go:14-20 | The tokens at hand are what some window that ends now has left of the burst and its length, so a packet is refused only if such a window is used up. |
| Tai64n.StampOrder | tai64n/tai64n.go:22-37 | Comparing stamps is comparing seconds and then nanoseconds without their 24 low bits. |
| Tai64n.StampLater | tai64n/tai64n.go:22-37 | A later instant is stamped later unless both fall into the same second and block; instants 2^24 ns apart always are, and the order is never reversed. |
| Tai64n.LaterThanZero | device/noise-protocol.go:405-413 | Every stamp but that of the first instant is later than the zero stamp of a peer not heard of. |
| Tai64n.AllAccepted | device/noise-protocol.go:405-413 | Initiations consumed in the order of their stamps are all accepted if and only if no two neighbours were stamped in the same second and block. |
| Tai64n.GateSpaces | device/send.go:103-116 | Whatever attempts and responses there are, without a reset in between attempts pass the gate at least RekeyTimeout apart. |
| Tai64n.AnswerDelays | device/send.go:142-146 | In any run, what is sent after a response and before a reset of the gate is sent at least RekeyTimeout after it. |
| Tai64n.SentAccepted | device/send.go:103-116 | The initiations that pass the gate in any run of attempts, responses and resets are all accepted if and only if no two neighbours were stamped in the same second and block. |
| Tai64n.NoFalseReplay | device/send.go:103-116 | Without a reset of the gate, and if no message is stamped later than RekeyTimeout less 2^24 ns after it passed, initiations that are consumed in order never look like replays. |
| Tai64n.ResetReplays | device/peer.go:195 | A reset between two attempts a millisecond apart: both pass, and the second is dropped as a replay. |
| Tai64n.LateStampReplays | device/send.go:115-121 | An initiation stamped only when the next one is due: both pass, and the second is dropped as a replay. |
| Tai64n.LastMonotone | device/noise-protocol.go:405-436 | However checks and updates of concurrent consumers interleave, lastTimestamp never decreases. |
| Tai64n.NoReplay | device/noise-protocol.go:405-436 | Once a stamp has been recorded no check of it or of an older one passes. |
| SessionLock.Monitor.HandleUser | mgmt/session/monitor.go:78-126 | The user's lock after the monitor has looked, the endpoint asked to be set back, and no other user's lock. The user is locked afterwards if and only if the lock was live or the handshake is recent and the peer has an endpoint; a live lock keeps its endpoint and otherwise the peer's is taken, and the endpoint the peer ends up with is the locked one. |
| SessionLock.Monitor.Tick | mgmt/session/monitor.go:50-76 | Every enabled user with a peer is handled once, the others not at all. |
| SessionLock.LockKept | mgmt/session/monitor.go:78-126 | Until it is cleared or found idle, a lock keeps its endpoint and its last activity does not go back. |
| SessionLock.EndpointReplaced | mgmt/session/monitor.go:107-121 | A locked endpoint gives way to another only if in between the lock was cleared or found idle for longer than the timeout. |
| SessionLock.FirstEndpointHolds | mgmt/session/monitor.go:84-113 | A user without a lock who shows a recent handshake is locked to that endpoint, and until the lock is cleared or found idle every other endpoint is set back. |
| SessionLock.ActivityMonotone | mgmt/session/monitor.go:92-99 | While an endpoint stays locked without a break its last activity never decreases. |
| SessionLock.RunOps | mgmt/session/monitor.go:50-76 | Any ticks of the monitor and clears of the API, in any order, make for every user a run of that user's events. |
| SessionLock.EndpointGuarded | mgmt/session/monitor.go:107-121 | So in any such run a user's locked endpoint gives way to another only if in between the API cleared it or a tick found it idle. |

## Left out

- Sockets, TUN devices, netlink, UAPI, the HTTP API, the database, configuration and logging: system calls and plumbing.
- Real cryptography: primitives are arbitrary functions; secrecy and authentication against an attacker are not modelled.
- Locks and data races: each operation is one atomic step, except for the nonce counter and lastTimestamp, whose atomic steps interleave.
- NoiseProtocol.Device.SendHandshakeResponse: takes drawn indices other than 0; what a drawn 0 does is said of CreateMessageResponse, and beginning a session from the inconsistent table that follows is not modelled.
- DeviceRuns.Run: takes drawn indices other than 0, and sends no message when the random source fails, for the same reason.
- Changing the device's private key, removing peers, MAC1, MAC2 and cookies, message encoding, timers.
- Gro.Pass.HandleGRO: promises nothing about the buffers after an error, and asks for buffers of at most 65535 bytes and at most 65536 of them, as the callers provide.
- GroRoundTrip.PartIsPacket: does not promise equal IPv4 identifications, TCP windows and other header fields that GRO does not compare, because the source does not keep them.
- VirtioRead.HandleVirtioRead: takes the decoded virtio header as a value and trusts the kernel for a non-zero segment size and for a checksum field where TCP and UDP may have it; buffers but the first are taken to be long enough.
- Gso.GsoSplit: takes a well-formed virtio header (checksum start behind the IP header, checksum field inside the transport header, a non-zero segment size), which the caller has checked or the kernel guarantees; the output buffers are returned as a sequence.
- Staging.Peer.SendStagedPackets: is one sequential call; whether the peer runs and has a keypair is fixed during the call, while the device may go down and the keypair may become too old at each pass through the top.
- Ratelimiter.Ratelimiter.Allow: calls are sequential, and time differences are not saturated at 64 bits.
- SessionLock.Monitor.HandleUser: a failure to set an endpoint back is not modelled; it changes no lock either.
- Padding sizes, wait pools, device up and down transitions and address allocation: they would only add easy members.
