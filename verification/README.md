# WireGuard, modelled and proved in Dafny

A Dafny 4.11 model of the parts of this WireGuard fork whose correctness is hardest to see from the
code, with proofs over all inputs, all runs or all interleavings. `dafny verify dfyconfig.toml` checks
the whole project.

- **X25519.** `Bits`, `Field25519` (section 5 of RFC 7748 over the integers mod 2^255 - 19), `Fe10`, `FeCodec`
  and `Curve25519` (the trusted application's ten-limb code) and `Fe16` and `PublicKey` (the sixteen-limb code
  of the embeddable library). Words are bounded number types, so that nothing wraps is part of what is verified.
  Both implementations are proved equal to the same function, byte for byte.
- **Allowed IPs.** `PrefixTree` is the trie as a value, `AddressBits` the byte-swapped keys and bit tricks,
  `TrieHeap`, `AllowedIps`, `TrieRemoval`, `TrieCursor` and `AllowedIpsTable` the kernel's pointer structure,
  `GoTrie` and `GoRemoval` the daemon's, `Masks` and `RouteList` the netmasks and the ordered list the kernel's
  self-test compares with, and `RouteAgreement` all three together. A ghost map of every node's pointers ties the heap to a shape, and the
  shape to a tree.
- **Handshake.** `NoiseCrypto` (primitives as parameters, key derivation), `NoisePattern` (the message tokens of
  section 5.3 of the Noise Protocol Framework, revision 34, for any pattern), `GoHandshake` (the daemon's four
  handshake functions and the session start), `HandshakeExchange` (two devices) and `HandshakeRuns` (every run of the
  handshake workers of one device).
- **Keypairs.** `Keypairs`: the kernel's three slots, reference counts and index entries of one peer;
  `KeypairRuns`: every run of it, against a machine without counts and without a table.
- **Index table.** `IndexTable`: insertion as an unlocked search followed by a locked check; `IndexRuns`: every
  interleaving of threads, against a plain map.
- **Replay window.** `ReplayWindow`: the ring bitmap of RFC 6479 against a set of accepted nonces.
- **Packet pipeline.** `Pipeline`: producers, workers and consumers as interleaved steps over the rings.
- **Rate limiter.** `RateLimiter`: token buckets in a hash table with collection, a packet's lookup and insertion
  being two steps; `RateRuns`: every run of any number of workers, against a map that is never collected.
- **Netlink dump.** `NetlinkDump`: the kernel's cutting of a device into messages and the tools' joining.

Some things the code does differ from what one would expect, and are kept as they are.

- The daemon's `removeByPeer` keeps only the first child of a removed node with two children, so prefixes of other
  peers can be lost: `GoRemoval.LosesASide` shows an instance and `GoRemoval.RemoveFirstExact` says exactly when it
  happens.
- The kernel's rate limiter releases its read lock before it inserts a new source, so two workers can both insert the
  same one and the second gets a full bucket again. `RateRuns.RaceBreaksBound` shows six packets where five are
  allowed, `RateRuns.SpanBound` counts what such insertions add, `RateRuns.ExactlyPlain` says exactly when the table
  behaves as a plain map, and `RateRuns.SpendsOverlap` that it takes two workers with the same source to depart from it.
- The daemon's handshake workers compare an initiation's timestamp with the last one under a read lock and store it
  under a write lock taken later, so two workers can accept the same initiation (`HandshakeRuns.RaceTakesTwice`).
  `HandshakeRuns.ExactlyIncreasing` says exactly when accepted timestamps increase.
- Two of the kernel's walks over the trie keep a stack of 128 slots. For `walk_remove_by_peer` the need is the height
  of the trie (`TrieRemoval.WalkRemoveByPeer`), which nested IPv6 prefixes of all lengths bring to 129
  (`TrieRemoval.BoundReached`). For `walk_by_peer`, which takes a node off before it pushes the children, it is
  `TrieCursor.Need` (`TrieCursor.WalkByPeer`), which nested prefixes with a sibling beside each bring to 129
  (`TrieCursor.NeedReached`). For each, 128 suffice exactly when its need is at most 128.
- The self-test's list does not find an equal route that stands behind another of the same length; it stays in the
  list, shadowed, and the answers are right all the same (`RouteList.PlaceMap`).

## Model

| member | source | states |
|---|---|---|
| `Curve25519.Curve25519Generic` | TrustApp/src/curve25519.c:806-914 | for every scalar and point, whichever arrays are shared, the output is exactly the bytes of X25519 |
| `Field25519.DelayedSwaps` | TrustApp/src/curve25519.c:850-899 | merging the conditional swaps of neighbouring iterations gives the same points as swapping before and after each |
| `Curve25519.Ladder` | TrustApp/src/curve25519.c:850-899 | the loop over bits 254 to 0 ends at the points of the RFC's ladder, whatever the scalar |
| `Curve25519.A24Form` | TrustApp/src/curve25519.c:887-893 | E * (BB + 121666 * E) is the RFC's E * (AA + 121665 * E) |
| `Curve25519.FeLooseInvert` | TrustApp/src/curve25519.c:610-658 | the addition chain computes z^(p - 2), for any loose z |
| `Curve25519.FeCswap` | TrustApp/src/curve25519.c:672-682 | the masked exclusive-ors exchange the two arrays if and only if the flag is set |
| `Fe10.MulCorrect` | TrustApp/src/curve25519.c:362-476 | for all loose limbs, no word wraps, the result is tight and congruent to the product |
| `Fe10.SqrCorrect` | TrustApp/src/curve25519.c:494-598 | the doubled symmetric products give a tight result congruent to the square |
| `Fe10.Mul121666Correct` | TrustApp/src/curve25519.c:685-799 | a tight result congruent to 121666 times the operand |
| `Fe10.ConvolutionValue` | TrustApp/src/curve25519.c:384-402 | the nineteen columns, odd limbs doubled, sum up to the product of the two integers |
| `Curve25519.FeAdd` | TrustApp/src/curve25519.c:276-317 | the sum of tight elements is loose and stands for the sum, in place too |
| `Curve25519.FeSub` | TrustApp/src/curve25519.c:319-360 | the difference with 2p added stays within loose bounds and stands for the difference |
| `FeCodec.FromBytesCorrect` | TrustApp/src/curve25519.c:80-106 | any 32 bytes become tight limbs of the coordinate the RFC decodes, top bit ignored |
| `FeCodec.FreezeCorrect` | TrustApp/src/curve25519.c:158-212 | wrapping borrows and the masked addition of p leave the one residue below p |
| `FeCodec.EncodeCorrect` | TrustApp/src/curve25519.c:214-250 | the bytes written are the little-endian residue of any tight element |
| `PublicKey.GeneratePublicKey` | wireguard_kernel/contrib/examples/embeddable-wg-library/wireguard.c:1711-1757 | equals X25519 at the base point for every private key, hence agrees with the ten-limb code |
| `PublicKey.Ladder` | wireguard_kernel/contrib/examples/embeddable-wg-library/wireguard.c:1720-1744 | the loop with two swaps per iteration computes the plain ladder at u = 9 |
| `PublicKey.ChainEnd` | wireguard_kernel/contrib/examples/embeddable-wg-library/wireguard.c:1689-1703 | square-and-multiply with bits 4 and 2 left out reaches the exponent p - 2, that of the addition chain |
| `PublicKey.Invert` | wireguard_kernel/contrib/examples/embeddable-wg-library/wireguard.c:1689-1703 | the loop computes z^(p - 2), in place too |
| `PublicKey.Pack` | wireguard_kernel/contrib/examples/embeddable-wg-library/wireguard.c:1625-1653 | from any limbs up to 2^62 the bytes of the least residue, after three carries and two trial subtractions |
| `PublicKey.SubtractP` | wireguard_kernel/contrib/examples/embeddable-wg-library/wireguard.c:1635-1642 | the borrow chain leaves the digits of t - p and its sign |
| `PublicKey.Cswap` | wireguard_kernel/contrib/examples/embeddable-wg-library/wireguard.c:1609-1623 | the two arrays are exchanged if and only if the flag is 1, for negative limbs too |
| `PublicKey.Subtract` | wireguard_kernel/contrib/examples/embeddable-wg-library/wireguard.c:1663-1669 | stands for the difference and may be fed to multmod |
| `Fe16.MultModLimbs` | wireguard_kernel/contrib/examples/embeddable-wg-library/wireguard.c:1671-1687 | no overflow for sums and differences of reduced elements; reduced and congruent to the product, in place too |
| `Fe16.Schoolbook` | wireguard_kernel/contrib/examples/embeddable-wg-library/wireguard.c:1674-1679 | the double loop builds the 31 limbs of the product, with bounds |
| `Fe16.Carry` | wireguard_kernel/contrib/examples/embeddable-wg-library/wireguard.c:1599-1607 | digits in range except the lowest; the value drops by a multiple of 2^256 - 38 = 2p |
| `PrefixTree.LookupLongest` | wireguard_kernel/src/allowedips.c:189-202 | the trie walk gives the longest match of the map the trie stands for |
| `PrefixTree.InsertEntries` | wireguard_kernel/src/allowedips.c:248-313 | insertion keeps the trie well formed and changes the map at one prefix only |
| `PrefixTree.RemoveEntries` | wireguard_kernel/src/allowedips.c:117-157 | removal keeps the trie well formed and drops exactly the prefixes of the peer |
| `PrefixTree.RemoveClean` | wireguard_kernel/src/allowedips.c:117-157 | a trie without the peer is left as it is, so removing twice is removing once |
| `AddressBits.CommonBitsIs` | wireguard_kernel/src/allowedips.c:163-178 | the word-wise find-last-set counts the leading bits two byte-swapped addresses share |
| `AddressBits.ChooseIs` | wireguard_kernel/src/allowedips.c:31-44 | the byte and shift chosen for the architecture read bit number cidr of the address |
| `AddressBits.MaskedAddressIs` | wireguard_kernel/src/allowedips.c:90-99 | the reported address is the prefix followed by zero bits, in network order |
| `AddressBits.GoCommonBitsIs` | com.wireguard.android_tee/app/tools/wireguard-go/allowedips.go:49-70 | the daemon's leading zeros of swapped words count the same bits in network order |
| `AllowedIps.Trie.FindNode` | wireguard_kernel/src/allowedips.c:189-202 | the loop over pointers answers as the lookup in the tree |
| `AllowedIps.Trie.NodePlacement` | wireguard_kernel/src/allowedips.c:226-246 | the node that holds the prefix, or the one whose side it belongs on, with what stands there |
| `AllowedIps.Trie.Add` | wireguard_kernel/src/allowedips.c:248-313 | the heap afterwards is linked as the tree with the prefix inserted; on an error, and out of memory only then, nothing changed |
| `TrieRemoval.WalkRemoveByPeer` | wireguard_kernel/src/allowedips.c:117-157 | the walk ends, though it descends again after a splice, and leaves the tree without the peer; the most slots it holds is the height of the tree, at most bits + 1 |
| `TrieRemoval.HeightPath` | wireguard_kernel/src/allowedips.c:117-157 | a tree is as high as its longest path from the root |
| `TrieRemoval.BoundReached` | wireguard_kernel/src/allowedips.c:117-157 | for every address size, inserting a prefix of each length makes a well-formed tree of height bits + 1 |
| `TrieRemoval.Visit` | wireguard_kernel/src/allowedips.c:143-154 | one visit on the way up is the removal at the top of that subtree, and the subtree shrinks or is left for good |
| `TrieCursor.WalkByPeer` | wireguard_kernel/src/allowedips.c:70-106 | reports and what stays on the stack together are what was pending, in order; the failed node stays on top; the most entries ever held, over resumed calls, is exactly what the tree needs |
| `TrieCursor.PrefixesComplete` | wireguard_kernel/src/allowedips.c:70-106 | the order of the walk lists every prefix of the peer and nothing else |
| `TrieCursor.PrefixesOnce` | wireguard_kernel/src/allowedips.c:70-106 | the order of the walk lists none of them twice |
| `TrieCursor.StackBound` | wireguard_kernel/src/allowedips.c:70-106 | a walk stack never has more than bits + 1 entries |
| `TrieCursor.NeedReached` | wireguard_kernel/src/allowedips.c:70-106 | for every address size, nested prefixes of each length with a sibling beside each, inserted one by one, make a walk that holds bits + 1 entries |
| `AllowedIpsTable.Table.Insert` | wireguard_kernel/src/allowedips.c:335-355 | sets one prefix of one family from its network-order address; the other family is unchanged |
| `AllowedIpsTable.Table.RemoveByPeer` | wireguard_kernel/src/allowedips.c:357-364 | both families lose exactly the prefixes of the peer |
| `AllowedIpsTable.Table.Lookup` | wireguard_kernel/src/allowedips.c:204-224 | the longest match among the prefixes of the family |
| `AllowedIpsTable.Table.Walk` | wireguard_kernel/src/allowedips.c:366-389 | a call reports a front part of what is left and keeps the rest; 0 exactly when nothing is left; a stale cursor reports nothing |
| `AllowedIpsTable.AllIs` | wireguard_kernel/src/allowedips.c:366-389 | the prefixes a full walk goes through are exactly those the two tries hold for the peer, none twice |
| `AllowedIpsTable.WalkToEnd` | wireguard_kernel/src/allowedips.c:366-389 | however the failures fall, what is reported is a front part of the full list, each prefix once, IPv4 then IPv6, masked; with room for one address in every call it is all of it after one call more than there are prefixes; the deepest stack is then the larger need of the two tries, at most 129 |
| `Masks.MaskBits` | wireguard_kernel/src/selftest/allowedips.c:118-128 | the mask built from bytes of ones and one shifted word has exactly its first cidr bits set |
| `Masks.MaskRoundTrip` | wireguard_kernel/src/selftest/allowedips.c:118-134 | counting the set bits of that mask gives cidr back |
| `RouteList.SameEntryIs` | wireguard_kernel/src/selftest/allowedips.c:169-196 | comparing address and mask bytes is comparing family and prefix |
| `RouteList.Matches` | wireguard_kernel/src/selftest/allowedips.c:150-167 | the masked words are equal exactly if the prefix of the entry is one of the address |
| `RouteList.List.InsertOrdered` | wireguard_kernel/src/selftest/allowedips.c:169-196 | the loop over byte entries is the placing of a rule in a list of bit-string rules: an equal route it meets is overwritten, else the rule goes before the first that is no longer |
| `RouteList.List.Insert` | wireguard_kernel/src/selftest/allowedips.c:199-232 | from any address and length, host bits included, the rule of the first cidr bits is placed |
| `RouteList.List.Lookup` | wireguard_kernel/src/selftest/allowedips.c:234-268 | the first rule of the family whose prefix the address has |
| `RouteList.PlaceMap` | wireguard_kernel/src/selftest/allowedips.c:169-196 | ordered insertion changes the map of its family at one prefix, in spite of shadowed rules |
| `RouteList.FirstIsLongest` | wireguard_kernel/src/selftest/allowedips.c:234-268 | in a list ordered by decreasing length the first match is the longest |
| `RouteList.TrieIsList` | wireguard_kernel/src/selftest/allowedips.c:169-268 | after any insertions trie lookup and first match agree on every address |
| `GoTrie.Insert` | com.wireguard.android_tee/app/tools/wireguard-go/allowedips.go:99-161 | the recursion builds the same tree as the kernel's loop |
| `GoTrie.Lookup` | com.wireguard.android_tee/app/tools/wireguard-go/allowedips.go:163-177 | the loop answers as the lookup in that tree |
| `RouteAgreement.LookupThrice` | wireguard_kernel/src/selftest/allowedips.c:169-268 | after any routes, kernel trie, daemon trie and list send every address to the same peer, the longest match of the latest routes |
| `GoRemoval.RemoveByPeer` | com.wireguard.android_tee/app/tools/wireguard-go/allowedips.go:72-93 | the recursion with its assignments leaves the tree of RemoveFirst, using no node twice |
| `GoRemoval.RemoveFirstExact` | com.wireguard.android_tee/app/tools/wireguard-go/allowedips.go:72-93 | never adds a prefix; removes exactly those of the peer if and only if no node of the peer has something that stays on its first side and another peer's prefix on its second |
| `GoRemoval.LosesASide` | com.wireguard.android_tee/app/tools/wireguard-go/allowedips.go:86-92 | three insertions, a default route of one peer above two others: removing it loses one of them, which the kernel's removal keeps |
| `NoiseCrypto.KdfIsHkdf` | com.wireguard.android_tee/app/tools/wireguard-go/noise-helpers.go:42-65 | KDF1, KDF2 and KDF3 are the first blocks of HKDF of RFC 5869 |
| `NoiseCrypto.Kdf` | wireguard_kernel/src/noise.c:286-336 | the kernel's derivation through one buffer gives the same blocks, cut to length, and stops where a destination is missing |
| `NoisePattern.MessageAgrees` | com.wireguard.android_tee/app/tools/wireguard-go/noise-protocol.go:155-493 | whatever the pattern, what one party writes the matching party reads: payload delivered, same chain key and hash |
| `GoHandshake.CreateMessageInitiation` | com.wireguard.android_tee/app/tools/wireguard-go/noise-protocol.go:155-232 | succeeds exactly under its conditions; message and state are those of the first IKpsk2 message; a fresh index leads to the handshake |
| `GoHandshake.ConsumeMessageInitiation` | com.wireguard.android_tee/app/tools/wireguard-go/noise-protocol.go:234-327 | accepts exactly what the reference reads from a known peer that is newer and not too soon; other handshakes unchanged |
| `GoHandshake.CreateMessageResponse` | com.wireguard.android_tee/app/tools/wireguard-go/noise-protocol.go:329-393 | only after an initiation; message and state are those of the second IKpsk2 message |
| `GoHandshake.ConsumeMessageResponse` | com.wireguard.android_tee/app/tools/wireguard-go/noise-protocol.go:395-493 | accepts exactly what the reference reads for the pending initiation of that index, otherwise changes nothing |
| `GoHandshake.BeginSymmetricSession` | com.wireguard.android_tee/app/tools/wireguard-go/noise-protocol.go:498-586 | keys by role, indices, index table and slot rotation; without a finished handshake nothing changes |
| `HandshakeRuns.Run` | com.wireguard.android_tee/app/tools/wireguard-go/noise-protocol.go:234-586 | in every interleaving of checks and updates by any workers, with initiations, responses and sessions in between, what the device refuses and accepts and the last timestamps are those of a machine over timestamps alone |
| `HandshakeRuns.ExactlyIncreasing` | com.wireguard.android_tee/app/tools/wireguard-go/noise-protocol.go:299-321 | the timestamps accepted from a peer strictly increase along a run if and only if no worker, between its check and its update, is overtaken by another with the same peer and a timestamp not older |
| `HandshakeRuns.NoneTwice` | com.wireguard.android_tee/app/tools/wireguard-go/noise-protocol.go:299-321 | while nobody is overtaken no initiation is accepted twice |
| `HandshakeRuns.SequentialIncreasing` | com.wireguard.android_tee/app/tools/wireguard-go/noise-protocol.go:234-327 | with one initiation after the other accepted timestamps strictly increase and none is accepted twice, whatever else the device does |
| `HandshakeRuns.RaceTakesTwice` | com.wireguard.android_tee/app/tools/wireguard-go/noise-protocol.go:299-321 | any acceptable initiation is accepted twice if two workers check it before one of them updates |
| `HandshakeRuns.HonestReads` | com.wireguard.android_tee/app/tools/wireguard-go/noise-protocol.go:155-327 | an initiation made with the device's public key by a peer it knows is read as that peer's, with its timestamp |
| `HandshakeRuns.MayRepeat` | com.wireguard.android_tee/app/tools/wireguard-go/noise-protocol.go:299-321 | there are primitives with every property assumed of them, and runs with them, in which accepted timestamps do not increase |
| `HandshakeExchange.Exchange` | com.wireguard.android_tee/app/tools/wireguard-go/noise-protocol.go:155-586 | an undisturbed exchange is accepted and ends with equal chain key and hash, crossed keys and crossed indices, from commuting DH and correct AEAD only |
| `HandshakeExchange.ResponseAuthenticates` | com.wireguard.android_tee/app/tools/wireguard-go/noise-protocol.go:329-493 | with injective hash and AEAD, an accepted response sealed by a responder means the same statics, ephemerals, timestamp ciphertext and preshared key |
| `HandshakeExchange.Intercepted` | com.wireguard.android_tee/app/tools/wireguard-go/noise-protocol.go:155-493 | two devices, both messages replaced on the way by anything: if the initiator accepts a reply with the responder's encrypted part, nothing was replaced, each has the other's static key, and preshared key, chain key and hash are equal; an unreplaced reply is accepted if static and preshared key agree |
| `HandshakeExchange.UndisturbedIsAccepted` | com.wireguard.android_tee/app/tools/wireguard-go/noise-protocol.go:155-493 | for any keys, an undisturbed run meets every condition of that theorem |
| `HandshakeExchange.ResponseBinds` | com.wireguard.android_tee/app/tools/wireguard-go/noise-protocol.go:395-493 | an accepted response ties ephemeral key, earlier transcript and preshared key |
| `NoiseCrypto.PrimitivesExist` | com.wireguard.android_tee/app/tools/wireguard-go/noise-helpers.go:23-65 | the assumptions on primitives can all be met at once, with no shared secret zero |
| `KeypairRuns.Run` | wireguard_kernel/src/noise.c:106-270 | in every sequence of handshakes, sessions, receipts, clears and packets the peer has the slots of the plain machine, sends under and finds the same keypairs; counts are slots + packets, freed once and exactly at 0; the table leads to exactly the keypairs in slots |
| `KeypairRuns.AlwaysSound` | wireguard_kernel/src/noise.c:177-270 | in every reachable state the slots differ, and current was made as initiator or is confirmed |
| `KeypairRuns.SendsConfirmed` | wireguard_kernel/src/noise.c:177-270 | nothing is ever sent under a keypair not begun as initiator, unless a packet came in under it and an authenticated packet of it was delivered before, at a time when none had been sent under it |
| `KeypairRuns.EvictedStays` | wireguard_kernel/src/noise.c:124-230 | a keypair out of its slot never gets into one again, and no later lookup finds it |
| `KeypairRuns.FreedOnce` | wireguard_kernel/src/noise.c:124-146 | a count that has dropped to 0 stays 0 for the rest of the run |
| `Keypairs.Peer.AddNewKeypair` | wireguard_kernel/src/noise.c:177-230 | the rotation for both roles; displaced keypairs are put and unhashed |
| `Keypairs.Peer.ReceivedWithKeypair` | wireguard_kernel/src/noise.c:232-270 | next moves to current and current to previous exactly when the packet came under next |
| `Keypairs.Peer.Put` | wireguard_kernel/src/noise.c:124-146 | one reference fewer, freed with the last; only entries of keypairs leave the table |
| `Keypairs.Peer.Clear` | wireguard_kernel/src/noise.c:157-175 | all slots empty, their references given back |
| `Keypairs.Peer.BeginSession` | wireguard_kernel/src/noise.c:758-803 | the new keypair takes its slot and the handshake's index, unless the peer is dead |
| `Keypairs.Peer.SendWithCurrent` | wireguard_kernel/src/send.c:364-398 | what is sent under was made as initiator or has been confirmed |
| `Keypairs.Peer.Deliver` | wireguard_kernel/src/receive.c:342-444 | an authenticated packet under next makes it current; the packet's reference is given back |
| `IndexRuns.Run` | wireguard_kernel/src/hashtables.c:67-209 | in every interleaving each step of the hash table, lookups included, gives the result of the plain map, and the map, index fields and pending insertions are the same |
| `IndexRuns.AlwaysSound` | wireguard_kernel/src/hashtables.c:67-181 | in every interleaving an entry of the map carries the index it is under, and an entry being inserted is not in it |
| `IndexRuns.PlacedStays` | wireguard_kernel/src/hashtables.c:98-152 | an index that was handed out leads to its entry and is not handed out again until the entry itself is inserted anew, removed or replaced |
| `IndexTable.LookupAgrees` | wireguard_kernel/src/hashtables.c:183-209 | searching the bucket is looking the index up in the map |
| `IndexTable.Table.Commit` | wireguard_kernel/src/hashtables.c:129-151 | inserts exactly when the index is still unused, else draws again |
| `IndexTable.Table.Search` | wireguard_kernel/src/hashtables.c:118-127 | the unlocked search goes on exactly when the index is unused at that moment |
| `IndexTable.Table.StartInsert` | wireguard_kernel/src/hashtables.c:107-114 | an entry that is already hashed is taken out first |
| `IndexTable.Table.Replace` | wireguard_kernel/src/hashtables.c:154-173 | the new entry takes the index of a hashed old one, else nothing changes |
| `IndexTable.Table.Remove` | wireguard_kernel/src/hashtables.c:175-181 | the map loses the entry if it was hashed, and nothing else |
| `IndexTable.Table.Lookup` | wireguard_kernel/src/hashtables.c:183-209 | the entry of the map, if it is of a wanted type |
| `ReplayWindow.ReceiveCounter.Validate` | wireguard_kernel/src/receive.c:301-338 | accepts exactly a nonce below the limit, never accepted before, at most 1984 behind the highest accepted |
| `ReplayWindow.ReceiveCounter.Advance` | wireguard_kernel/src/receive.c:319-329 | after the words between are cleared, the bits of the new window are exactly the accepted nonces |
| `ReplayWindow.ValidateAll` | wireguard_kernel/src/receive.c:301-338 | over any calls the ring answers as the set, and no nonce passes twice |
| `Pipeline.StepKeeps` | wireguard_kernel/src/queueing.h:140-190 | every step of a producer, worker or consumer keeps the invariant |
| `Pipeline.RunKeeps` | wireguard_kernel/src/queueing.h:140-190 | the invariant holds after every interleaving |
| `Pipeline.InOrderOnce` | wireguard_kernel/src/send.c:268-347 | packets leave a peer ring in the order they entered it, none twice |
| `Pipeline.LeavesUnheld` | wireguard_kernel/src/receive.c:446-568 | a packet about to leave is finished and held by neither the device ring nor a producer or worker |
| `Pipeline.NoneStranded` | wireguard_kernel/src/send.c:268-347 | on the transmit side an unfinished packet is in the device ring or with a thread, and a finished head has its consumer scheduled, running or about to be |
| `Pipeline.DeviceServed` | wireguard_kernel/src/queueing.h:140-160 | on either side, after every interleaving, a packet in the device ring has a worker scheduled, in its loop, or about to be scheduled |
| `RateLimiter.Limiter.Lookup` | wireguard_kernel/src/ratelimiter.c:85-130 | a source that is found is charged and answered; otherwise the worker goes on to insert |
| `RateLimiter.Limiter.Insert` | wireguard_kernel/src/ratelimiter.c:132-152 | exactly with room and memory the source gets a fresh bucket, whether or not it has appeared meanwhile, else nothing changes |
| `RateLimiter.Limiter.Allow` | wireguard_kernel/src/ratelimiter.c:85-153 | both halves with nothing in between, packets of other protocols refused |
| `RateLimiter.Limiter.GcEntries` | wireguard_kernel/src/ratelimiter.c:56-83 | of the sources that can be found exactly those idle for over a second are gone, over both tables and all buckets |
| `RateLimiter.FindCollected` | wireguard_kernel/src/ratelimiter.c:56-83 | with several entries of one source in a bucket, collection never brings an older one to light |
| `RateRuns.Run` | wireguard_kernel/src/ratelimiter.c:56-153 | with lookups and insertions of any workers, collections and late frees in any order, the answers are those of the machine without buckets; the counter stays within the limit and covers the sources held; an insertion is refused exactly at the limit or without memory, and never for room before there were as many insertions as places |
| `RateRuns.ExactlyPlain` | wireguard_kernel/src/ratelimiter.c:56-153 | at every point of the run the levels are those of a map that is never collected, if and only if no insertion is of a source below its full level |
| `RateRuns.SpendsOverlap` | wireguard_kernel/src/ratelimiter.c:107-148 | such an insertion happens only if another worker inserted the same source since the lookup |
| `RateRuns.SpanBound` | wireguard_kernel/src/ratelimiter.c:107-148 | in any span of any run, packets of a source that passed cost at most TOKEN_MAX, the time between, and TOKEN_MAX for each such insertion |
| `RateRuns.RateBound` | wireguard_kernel/src/ratelimiter.c:35-148 | without such an insertion, any span T lets at most (TOKEN_MAX + T) / PACKET_COST packets of a source pass, whatever other sources and collections do |
| `RateRuns.RaceBreaksBound` | wireguard_kernel/src/ratelimiter.c:107-148 | with one, six packets pass in no time where that bound allows five |
| `RateRuns.SequentialPlain` | wireguard_kernel/src/ratelimiter.c:85-153 | with one packet after the other, every answer not refused for room is that of the map that is never collected |
| `RateRuns.SequentialBound` | wireguard_kernel/src/ratelimiter.c:35-153 | with one packet after the other, the rate bound holds of every span |
| `NetlinkDump.DumpDevice` | wireguard_kernel/src/netlink.c:187-283 | all messages joined give every peer once, in order, with its details and each address once; at most one message more than peers and addresses |
| `NetlinkDump.Dump.NextMessage` | wireguard_kernel/src/netlink.c:187-283 | each message goes on where the last one ended; error, length or 0; with room for one address it makes progress |
| `NetlinkDump.Dump.SendPeers` | wireguard_kernel/src/netlink.c:249-258 | the loop stops at the first peer that cannot be finished and knows how far it came |
| `NetlinkDump.GetPeer` | wireguard_kernel/src/netlink.c:93-161 | nothing, or a fragment with the next addresses; details go with the first one only; the cursor is cleared exactly at the end |
| `NetlinkDump.Received.Parse` | wireguard_kernel/src/tools/ipc.c:714-859 | fragments are appended in order; refused exactly when a prefix length is out of range |
| `NetlinkDump.Received.CoalescePeers` | wireguard_kernel/src/tools/ipc.c:866-886 | the loop joins neighbours with one key; the pointer to the last address is never followed when null |
| `NetlinkDump.Step` | wireguard_kernel/src/netlink.c:93-161 | one more fragment extends the joined list by exactly its addresses and leaves less to do |

## Left out

- Curve25519.Curve25519Generic: states agreement with the formulas of RFC 7748, not that these are scalar multiplication on the curve; the erasure of secrets at its end is not modelled.
- Fe10.MulCorrect: words are bounded integers, shifts and masks written as quotients and remainders with their bounds proved.
- NoiseCrypto.Kdf: BLAKE2s, HMAC, ChaCha20-Poly1305 and the DH call into the trusted application are parameters; hashing of several pieces is hashing of their concatenation.
- HandshakeExchange.Exchange: locks, MAC fields, cookies and the message encoding are not modelled; random indices, ephemeral keys and times are parameters.
- GoHandshake.ConsumeMessageInitiation: check and update are one step; `HandshakeRuns` has them as two.
- GoHandshake.ConsumeMessageResponse: check and update are one step, in `HandshakeRuns` too, while the source takes the lock once for each; the timestamps do not depend on it.
- KeypairRuns.Run: each function that runs under its lock is one step, and slots are written before displaced references are given back; RCU grace periods, expiry times and the counters of keys are left out.
- IndexTable.Table.Replace: the test for a hashed entry and the replacement are one step.
- AllowedIps.Trie.Add: concurrent readers under RCU are not modelled; memory for new nodes is a parameter.
- TrieRemoval.WalkRemoveByPeer: the stack is a sequence; the array of the source has 128 slots, which suffice exactly when the tree is at most 128 high.
- TrieCursor.WalkByPeer: the stack is a sequence; the array in the cursor has 128 slots, which suffice exactly when the tree needs at most 128.
- AllowedIpsTable.Table.Walk: the sequence number does not wrap.
- Pipeline.NoneStranded: stated for transmission only, since a full ring on the receive side schedules a work item that is not set up there.
- Pipeline.RunKeeps: ring capacities appear as enqueue steps that fail; the processor for a packet is any one, and workers of the same processor may overlap, which the work queue does not do; the encryption itself and nonce assignment are left out.
- RateRuns.Run: every event says how much time has gone by, so the clock does not go back; a bucket list is a sequence, and hashing is a parameter.
- RateLimiter.Limiter.Insert: reading the clock and changing the list are one step, and so are counting an entry and taking that back when there is no room, so a worker is not refused for a place that another one is about to give back.
- NetlinkDump.DumpDevice: the device does not change during the dump, so peers deleted half-way and the generation counter are left out; padding before 64-bit attributes is not counted in sizes.
- NetlinkDump.Received.CoalescePeers: lists of peers and addresses are sequences, with a flag for a null pointer to the last address.
- The daemon's `ReceivedWithKeypair` and `entriesForPeer`, and the kernel's `root_free_rcu`: they would only add members easier than the ones here.
- The kernel's handshake functions, timers, cookies, sockets, devices, the trusted application's transport and the command-line tools.
