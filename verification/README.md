# Verification of pav's key transparency

pav is a key-transparency system. A server registers public keys under user ids and publishes one
signed Merkle digest per epoch; an auditor replays the server's updates and signs the digests it
agrees with; clients put keys, look keys up, monitor their own key, and check everything they are
told. This Dafny project models the five parts that carry the system's guarantees and proves what
they guarantee, for every input, every run and every interleaving.

| file | models |
|---|---|
| `Bytes.dfy`, `Marshal.dfy` | integers, slices and looping codecs of `marshalutil` and `kt/serde_misc.go` |
| `MerkleTrie.dfy`, `MerkleProof.dfy`, `Merkle.dfy` | `merkle/merkle.go`: the tree as a value, proofs, and the heap tree updated in place |
| `KtTypes.dfy`, `Evidence.dfy` | messages, encodings, cryptographic interface; `kt/evidence.go` |
| `Auditor.dfy`, `Client.dfy`, `Server.dfy`, `ServerProofs.dfy`, `ServerImpl.dfy` | `kt/auditor.go`, `kt/client.go`, `kt/server.go` |
| `WorkQ.dfy`, `PutQueue.dfy`, `PutReply.dfy`, `Resend.dfy` | `kt/workq.go` as a step system; a put's way through queue, worker and wire, and what if it is delivered twice |
| `History.dfy`, `Security.dfy`, `AliceBob.dfy`, `Correctness.dfy`, `Progress.dfy`, `Sync.dfy` | `alicebob/`: the two whole-run claims, and that calls complete and auditors sync |
| `Serde.dfy`, `SerdeNames.dfy`, `SerdeBuild.dfy`, `SerdeCases.dfy` | `serde/compiler.go`: generated statements and their semantics, names of handlers, and which packages build |
| `Generated.dfy`, `KtPackage.dfy` | `kt/serde.go`, `kt/serde.out.go`, `merkle/serde.out.go`: the generated codecs in use, and all messages of kt |
| `Wire.dfy`, `WireRuns.dfy` | replies as messages on the wire, and in every honest run |

## Main results

1. **Security** (`Security.BobGetsAlicesKey`, `AliceBob.TestSecurity`). The server and the network
   answer anything. If Alice's calls succeed, Bob's lookup of her succeeds at an epoch that is at most
   the one her last call returned, and both audits against an honest auditor succeed, then what Bob got is what Alice's
   history has at that epoch. Any number of puts and self-monitoring calls, any keys, any updates sent
   to the auditor, and any other calls of Bob before and after the lookup.
2. **Correctness** (`Correctness.NoCallFails`, `BobGetsAlicesKeyFromHonestServer`). With the honest
   server and one client per uid, in every interleaving of calls with the three phases of the worker, no
   call returns an error, and Bob's answer is Alice's history without any auditor. In the same runs no
   audit fails, and no evidence against the server checks out. Calls that are made and served complete, with
   their effects (`CorrectnessProgress`), and an auditor's sync loop ends with the server's epochs (`KtSync`).
   Against any server, equivocation that a client sees leaves evidence (`KtClient.ForkGivesEvidence`).
3. **Merkle tree** (`MerkleTrie.Canonical`, `MerkleTrie.DigestBinds`, `MerkleProofs.VerifyBinds`,
   `MerkleProofs.ProveComplete`, `Merkle.PutNode`). The heap tree refines a map, its shape and digest depend on the map only, accepted
   proofs bind whatever the digest stands for, and the tree's own proofs are accepted.
4. **Work queue** (`WorkQ`, `KtPutQueue.PutReturnsOwnAnswer`). Every call is in one batch and returns with
   the answer to its own request, no wake-up is lost, there is no deadlock, and every schedule ends with
   every call answered.
5. **Serde** (`Serde.RoundTrip`, `SerdeBuild.BuildsIff`, `SerdeBuild.RoundTripIffBuildable`,
   `KtPackage.KtRoundTrip`). For every schema, the statements of the generated decoder undo those of the
   encoder exactly for the values that meet their const invariants; exactly which schemas give Go code that
   builds, hence round-trips; when nil pointers make an encoder panic; and that all messages of kt without
   nil pointers round-trip, with the handlers in use, for every order in which a map is ranged over. In
   every honest run, each answer of the server reaches its client as it is (`KtWireRuns`).

Each class method is proved against a function of its arguments and the old state (`AfterPut`,
`AfterUpdate`, `AfterBatch`, the trie `Put`, ...), and the results above are about those functions.

## Where the code does not do what it is meant to

- **Not every accepted schema gives code that builds.** `SerdeBuild.BuildsIff` has the exact condition, which
  covers result counts, assignability, declared functions, scopes and imports. It fails for
  - a field with a constant: the generated assignment takes three results (serde/compiler.go:448-459,
    475-515), and the readers of constants return two (marshalutil/marshalutil.go:18-70). The schema
    serde/testdata/const/const.go is such a case: `SerdeCases.ConstPackageFails`;
  - a basic field of a defined type, as in serde/testdata/alias/alias.go: `SerdeCases.AliasPackageFails`;
    likewise byte slices with a defined type inside;
  - a pointer to a struct without codecs (`SerdeCases.ElsewhereFails`);
  - a struct with type parameters (`SerdeCases.GenericFails`);
  - two types for one pair of handlers, as `getCanonTyName` (serde/compiler.go:322-341) makes them
    (`SerdeCases.TwoMapsFail`). `SerdeNames.SameNameIff` and `SerdeBuild.SeparatedNoClash` say which names
    rule that out, `SerdeNames.MapNamesClashIff` exactly when two map types clash;
  - a schema without bool and uint64 fields, since the import of `marshal` is then not used
    (serde/compiler.go:108-127; so serde/testdata/nogen/nogen.golden.go:5-8): `SerdeCases.OnlyBytesFails`.
- **An audit may lose evidence.** `Audit` keeps the error of the last failing epoch in map order
  (kt/client.go:140-146), so an error without evidence can replace one with it. `KtClient.AuditAlwaysEvidenceIff`:
  evidence is returned in every order if and only if some epoch has it and no epoch fails without.
- **A rejected put cannot be answered.** A request whose uid is already in the batch gets a response with
  a nil digest pointer (kt/server.go:121-132), which `ServerPutReplyEncode` follows
  (kt/serde.out.go:183-190, 27-33). `Serde.EncodeIff` says for every schema when generated encoders follow no
  nil pointer; `KtWire.RespArrivesIff` is its instance for this reply. `KtPutReply.AnswersEncodable`: all
  answers of a batch can be encoded if and only if no uid occurs twice in it; `KtPutReply.TwoPutsOfOneUid`
  is a batch that cannot be answered. With one client per uid and each call delivered once this does not happen (`Correctness`).

## Assumptions

- The hash is any function into 32-byte strings. Binding results exhibit a collision computed from the
  proofs (`MerkleTrie.FindClash`); whole-run results assume that no two of the strings hashed in the
  run collide. No injective hash is postulated.
- Signatures: what a key's owner signs is accepted, and the accepted ones among the signatures that occur
  in the claim are on messages in the owner's log (`Evidence.NoForgery`).
- Signatures and VRF proofs have lengths below 2^64 (`KtWireRuns.CryptoFits`), for the results about the wire.
- VRF: a public key determines one output per input, and honest proofs are accepted. That distinct
  (uid, version) pairs have distinct outputs is assumed for the honest server only
  (`KtServer.LabelsInjective`).
- The `marshal` library is not part of this model: its integers are taken to be 8 bytes, little-endian, with `UInt64Put`
  agreeing, and its bools one byte, where any byte but 0 reads as true.
- Lengths, epochs and version numbers stay below 2^64; where the source adds without a check, the model wraps.
- In `Correctness` each remote call is delivered once. `CallServPut` sends a put again when the call fails
  (kt/rpc.go:85-89). Over the connections of netffi/netffi.go this delivers no second copy: a failed send or
  receive closes the connection (lines 61, 84, 94), and a client dials once (kt/client.go:173). Over the network that
  netffi/netffi.go:3-6 describes, where a send may get lost and a receive may return anything, it can. `KtResend.ResentPut`
  says exactly which copy's answer is then accepted, for every position in every batch; `KtResend.CopiesAnswered`,
  `LateCopyBreaksSelfMon` and `TwoCopiesOneBatch` start from a new server and a new client.
- Go's rules are modelled for what the generated file has in it. The rest of the package declares the supplied
  handlers, for any type, and nothing else by the names of the generated functions.

## Modelling choices

- `put` overwrites the pointer through which it was called; `Merkle.PutNode` returns the new pointer
  and updates the nodes in place. Bit tests on a byte are by division.
- The goroutines of the worker's two parallel phases only read the server and write to an output of
  their own; in the class they are loops, in `Correctness` they are steps between which clients act.
- Records that are built once and never changed (messages, proofs, `userState` entries replaced as a
  whole) are values.
- Ranging over a Go map is a loop that picks any remaining key.

## Model

| member | source | states |
|---|---|---|
| MerkleTrie.BitsDetermineLabel | merkle/merkle.go:292-305 | two 32-byte labels that agree on bits 0 to 255 are equal, so two distinct leaves separate at some depth below 256 |
| MerkleTrie.GetBitIs | merkle/merkle.go:292-305 | bit n is the one worth 2^(n mod 8) of byte n/8, and false beyond the end |
| MerkleTrie.PathLeavesRoom | merkle/merkle.go:64-83 | splitting a leaf never happens at depth 256: the measure by which `put` terminates |
| MerkleTrie.InnerHasTwo | merkle/merkle.go:22-36 | below every inner node there are at least two leaves |
| MerkleTrie.PutWellFormed | merkle/merkle.go:53-89 | `put` keeps every leaf on the path its label bits name and every inner node with two leaves below it |
| MerkleTrie.PutEntries | merkle/merkle.go:53-89 | `put` changes the stored map at its label and nowhere else |
| MerkleTrie.Canonical | merkle/merkle.go:53-89 | two well-formed trees that store the same map are equal |
| MerkleTrie.PutsRefineMap | merkle/merkle.go:42-51 | after any sequence of puts the tree stores the map those puts make |
| MerkleTrie.PutOrderIrrelevant | kt/auditor.go:101-107 | two put sequences that make the same map, in whatever order, build the same tree and the same digest |
| MerkleTrie.FindAgrees | merkle/merkle.go:136-164 | following the bits of a label, of any length, finds exactly what the map has for it |
| MerkleTrie.FoundIsEntry | merkle/merkle.go:136-164 | the leaf found for a label, its own or another, is an entry of the tree |
| MerkleTrie.PreimageInjective | merkle/merkle.go:250-280 | what is hashed for a node determines the kind of node, a leaf's label and value, and an inner node's two child hashes |
| MerkleTrie.LeafLayout | merkle/merkle.go:258-266 | a leaf hashes the byte 1, and label and value behind their lengths |
| MerkleTrie.InnerLayout | merkle/merkle.go:274-280 | an inner node hashes the byte 2 and the hashes of child 0 and child 1; an empty tree the byte 0 |
| MerkleTrie.DigestBinds | merkle/merkle.go:250-280 | two trees, even partly known, of one digest that lead a label to different places give a computed hash collision among the strings hashed for them |
| MerkleProofs.MerkleProofRead | merkle/serde.out.go:10-36 | decoding an encoded proof, with any tail, gives the proof and the tail |
| MerkleProofs.HashUp | merkle/merkle.go:216-227 | one turn of the loop goes from the hash of the revealed subtree at depth+1 to that at depth |
| MerkleProofs.VerifySiblings | merkle/merkle.go:204-232 | errs exactly when the length is no multiple of 32 or the tree revealed by label, last node and siblings has another digest |
| MerkleProofs.Verify | merkle/merkle.go:172-202 | errs exactly when the proof does not decode, claims the label itself as the other leaf, or reveals a tree of another digest |
| MerkleProofs.AcceptsIff | merkle/merkle.go:172-232 | a proof is accepted if and only if it decodes, whatever follows, its siblings are whole hashes and climb from the last node's hash to the digest, and, for non-membership, its leaf is not of the label |
| MerkleProofs.RevealedClaim | merkle/merkle.go:177-202 | the tree that an acceptable proof reveals leads the label to what the caller of `Verify` claims |
| MerkleProofs.VerifyBinds | merkle/merkle.go:172-232 | for one label and any digest, accepting two values, or membership and non-membership, computes a collision, for proofs of any lengths |
| MerkleProofs.VerifyStatesContent | merkle/merkle.go:172-232 | a proof accepted against a tree's digest whose claim differs from the tree's map computes a collision |
| MerkleProofs.VerifiedContent | merkle/merkle.go:172-176 | without collisions among the strings hashed, an accepted proof states the map's true content |
| MerkleProofs.SiblingsLength | merkle/merkle.go:156-163 | a proof has at most 256 sibling hashes of 32 bytes each |
| MerkleProofs.SiblingsFold | merkle/merkle.go:156-163 | folding the siblings that `find` appends, deepest first, gives back the tree's digest |
| MerkleProofs.AssembledBytes | merkle/merkle.go:103-134 | placeholder, siblings, patched header and hand-written leaf fields are the encoding of the proof struct |
| MerkleProofs.FinishProof | merkle/merkle.go:103-134 | the second half of `prove` returns the encoding of the intended proof, and the value if and only if the found leaf has the label |
| MerkleProofs.ProveComplete | merkle/merkle.go:97-232 | for every map and every label `Verify` accepts what `Prove` returns, against the map's digest |
| MerkleProofs.ProofDecodes | merkle/merkle.go:103-134 | what `Prove` returns decodes with no byte left; it answers the map, and has the other leaf that the path ends in if there is one |
| Merkle.GetNodeHash | merkle/merkle.go:243-248 | the cached hash is the hash recomputed from the subtree |
| Merkle.SetInnerHash | merkle/merkle.go:268-272 | makes an inner node's cached hash that of its subtree |
| Merkle.PutNode | merkle/merkle.go:53-89 | in place: the new subtree is the specified insertion, all cached hashes below it are right, no node is shared, and only nodes of the subtree change |
| Merkle.PutChild | merkle/merkle.go:85-88 | the recursive case on the child that the label's bit selects; the sibling is unchanged |
| Merkle.FindNode | merkle/merkle.go:136-164 | finds where the label leads and returns 8 placeholder bytes and the sibling hashes |
| Merkle.FindChild | merkle/merkle.go:156-163 | at an inner node: the result of the child that the label's bit selects, then the hash of the other child |
| Merkle.Tree.Put | merkle/merkle.go:42-51 | errs exactly on labels that are not 32 bytes, changing nothing; else updates the map at the label |
| Merkle.Tree.Get | merkle/merkle.go:91-95 | answers exactly what the map has |
| Merkle.Tree.Prove | merkle/merkle.go:97-134 | answers what the map has, with the encoding of the canonical tree's proof |
| Merkle.Tree.Digest | merkle/merkle.go:234-236 | the digest is a function of the map alone |
| Bytes.LittleEndianRead | marshalutil/marshalutil.go:30-37 | reading an 8-byte integer undoes writing it |
| Bytes.LittleEndianAt | marshalutil/marshalutil.go:30-37 | byte i of an integer is worth 256^i |
| Bytes.BoolBytes | marshalutil/marshalutil.go:9-16 | false is 0 and true is 1, any byte but 0 reads as true, and only an empty buffer is an error |
| Bytes.SliceRead | marshalutil/marshalutil.go:87-105 | reading a slice undoes writing it, with any tail |
| Bytes.SliceExact | marshalutil/marshalutil.go:87-98 | what a successful read consumed is exactly the encoding of what it returned |
| Bytes.SlicePrefix | marshalutil/marshalutil.go:100-105 | encodings of slices are prefix-free |
| KtTypes.PreSigDigInjective | kt/serde.out.go:10-15 | a signed message determines epoch and digest |
| KtTypes.CommitOpenInjective | kt/serde.out.go:66-71 | the committed bytes determine key and randomness |
| KtTypes.MapValPreRead | kt/serde.out.go:83-99 | decoding an encoded map value, with any tail, gives it and the tail |
| KtTypes.MapValPreExact | kt/serde.out.go:83-99 | bytes are consumed fully by the decoder if and only if they are exactly the encoding of the result |
| KtTypes.ValEpochIff | kt/auditor.go:84-97 | a value carries an epoch if and only if it is exactly the encoding of that epoch and a commitment |
| KtTypes.CompMapValInjective | kt/server.go:289-295 | a map value determines its epoch and its commitment |
| Evidence.SignedDigOfEpoch | kt/evidence.go:7-13 | a digest accepted under the key of an owner who signs one digest per epoch is the owner's digest of that epoch |
| Evidence.HonestNeverFramed | kt/evidence.go:21-36 | no evidence checks out against an owner who signs one digest per epoch |
| KtAuditor.UpdateKeepsInv | kt/auditor.go:18-39 | an update keeps maps append-only, entries carrying their first epoch, and digests matching the maps; a rejected one changes nothing |
| KtAuditor.RunInv | kt/auditor.go:18-39 | all of this after any sequence of updates |
| KtAuditor.EntriesForever | kt/auditor.go:72-99 | over any run, an entry of any epoch is in exactly the epochs from the one its value encodes on, with the same value |
| KtAuditor.UpdateAcceptedIff | kt/auditor.go:62-99 | an update is accepted if and only if every label is 32 bytes and not in the map, and every value is exactly the encoding of a map value of the next epoch |
| KtAuditor.ValuesExact | kt/auditor.go:84-93 | over any run, every stored value is exactly the encoding of the first epoch that has its entry, and a commitment |
| KtAuditor.Auditor.CheckOneUpd | kt/auditor.go:72-99 | errs exactly if the label is not 32 bytes, is in the map, or the value is not exactly the encoding of a map value of this epoch |
| KtAuditor.Auditor.CheckUpd | kt/auditor.go:62-70 | errs exactly if some entry is bad, in any iteration order |
| KtAuditor.Auditor.ApplyUpd | kt/auditor.go:101-107 | adds all entries, in any iteration order; its assertion never fires |
| KtAuditor.Auditor.Update | kt/auditor.go:18-39 | accepts exactly those updates; the new state is that of the specified update, and the object keeps the auditor's invariant |
| KtAuditor.Auditor.Get | kt/auditor.go:41-53 | errs exactly past the last epoch; else returns the digest of that epoch's map |
| KtClient.StepKeeps | kt/client.go:31-134 | against any reply: digests stay keyed by epoch, signature-checked, below `nextEpoch`, never replaced by different ones; `nextEpoch` never falls; a failed call changes nothing |
| KtClient.PutAdvances | kt/client.go:31-65 | a successful put is at an epoch not below `nextEpoch`, which moves past it, and takes one version |
| KtClient.StepEvidenceValid | kt/client.go:179-197 | evidence that a call returns checks out |
| KtClient.AuditEvidenceValid | kt/client.go:149-170 | evidence that an audit returns checks out |
| KtClient.DigEvidenceIff | kt/client.go:179-197 | evidence is returned if and only if the signature is accepted, the epoch can be counted and is recorded, and the digests differ; it is the two digests; no error iff they do not differ |
| KtClient.ForkIsEvidence | kt/evidence.go:21-36 | any two signed digests of one epoch that differ pass `Evid.Check` |
| KtClient.ForkGivesEvidence | kt/client.go:191-195 | in any run, after a successful call, a validly signed different digest of the same epoch in any later reply makes that call return evidence with this digest, which checks out |
| KtClient.AuditEvidenceIff | kt/client.go:149-170 | an epoch audits without error iff both signatures are accepted and the digests agree, with evidence iff they differ |
| KtClient.AuditAlwaysEvidenceIff | kt/client.go:136-147 | an audit returns evidence in every iteration order if and only if some recorded epoch has evidence and none fails without |
| KtClient.RunInv | kt/client.go:31-134 | over any run against any server, recorded digests are sound and all evidence checks out |
| KtClient.RunExtends | kt/client.go:31-134 | over any run, no recorded digest is lost or replaced by a different one |
| KtClient.NextVerCountsPuts | kt/client.go:60-64 | `nextVer` is the number of successful puts |
| KtClient.Client.Put | kt/client.go:31-65 | new state, epoch and error are those of the specified put, for every reply |
| KtClient.Client.CheckHist | kt/client.go:225-234 | errs exactly if some version's proof is bad |
| KtClient.Client.Get | kt/client.go:67-109 | new state, answer and error are those of the specified lookup, for every reply |
| KtClient.Client.SelfMon | kt/client.go:111-134 | new state, epoch and error are those of the specified check, for every reply |
| KtClient.Client.Audit | kt/client.go:136-147 | no error exactly if every recorded epoch audits without one; the error is that of the last failing epoch in some order of all of them |
| History.ExtendHistLoop | alicebob/history.go:12-30 | repeats the last entry up to the wanted length |
| History.ExtendKeepsRecords | alicebob/history.go:12-30 | once extended, entry e is still the last put at or before e |
| History.AppendKeepsRecords | alicebob/alicebob.go:113-118 | extending up to the put's epoch and appending the key makes entry e the last put at or before e |
| History.EntryIsVersion | alicebob/history.go:12-30 | version k is the entry from its put until the next one |
| Security.AliceHistory | alicebob/alicebob.go:109-119 | after any successful calls, Alice's history is that of her puts, at increasing epochs, one version each, and reaches just below `nextEpoch`; the assertion of `extendHist` always holds |
| Security.HistoryReaches | alicebob/alicebob.go:80-82 | after a call that returned epoch e, the history has exactly the epochs up to e |
| Security.AliceRunIff | alicebob/alicebob.go:109-119 | the run goes on if and only if none of the client's calls returns an error, and the client is as after these calls |
| Security.AuditedTruth | kt/client.go:136-170 | after an audit without error, every digest the client recorded is that of the honest auditor's map of the epoch |
| Security.AliceTruth | kt/client.go:31-65 | the auditor's map of each of Alice's puts holds her key, and her next version is absent at her last check |
| Security.AnswerTruth | kt/client.go:67-109 | what Bob accepted (versions, latest key, bound) is what the auditor's map of his epoch holds |
| Security.VersionFromPut | kt/auditor.go:72-99 | a version is in the auditor's map of an epoch exactly from the epoch of its put on |
| Security.AnswerIsHistory | alicebob/alicebob.go:93-99 | with append-only maps, Alice's and Bob's facts leave one answer: her history's entry |
| Security.HashedExists | kt/client.go:206-243 | for every run there is a finite set of all that is hashed in it |
| Security.BobGetsAlicesKey | alicebob/alicebob.go:58-100 | the security claim over every run, for every epoch of Bob up to the one that Alice's last call returned |
| AliceBob.AliceCall | alicebob/alicebob.go:109-119 | one call and the extension of the history just to its epoch; the assertions of `checkCliErr` and `extendHist` hold |
| AliceBob.RunAlice | alicebob/alicebob.go:109-119 | goes on exactly as long as no call errs, and ends with the history of all her calls |
| AliceBob.TestSecurity | alicebob/alicebob.go:58-100 | the check is reached exactly if no call errs and Bob's epoch is at most the self-monitored one, and then Bob's answer is Alice's entry; the assertions on evidence hold after every call |
| KtServer.InitInv | kt/server.go:261-280 | the empty tree as epoch 0 meets the server invariant |
| KtServer.AcceptedUids | kt/server.go:120-133 | the accepted requests of a batch have exactly the uids of the batch |
| KtServer.FirstReqIs | kt/server.go:120-133 | the request accepted for a uid is the first one |
| KtServer.BatchVersions | kt/server.go:168-191 | a batch adds for each uid in it one version, of its first request and this epoch, and nothing for other uids |
| KtServer.ApplyKeepsBatch | kt/server.go:172-190 | one turn of the locked loop keeps: labels in the map are those of versions below `numVers`, and the batch's updates are new entries of this epoch |
| KtServer.CommitKeepsInv | kt/server.go:168-193 | every batch keeps the server invariant: label (uid, v) is in the map iff v is below `numVers`, with that put's epoch and commitment; each epoch's map is the disjoint union of the previous one and its updates; each stored digest is signed and is that of its map |
| KtServerProofs.LatestDig | kt/server.go:319-323 | the digest that readers get is that of the map they prove against |
| KtServerProofs.MembAccepted | kt/client.go:206-214 | a stored version with its re-derived opening passes `checkMemb` |
| KtServerProofs.BoundAccepted | kt/client.go:236-243 | the proof of an absent version passes `checkNonMemb` |
| KtServerProofs.GetAccepted | kt/server.go:49-68 | in every state that meets the invariant, for every uid (no version, one, many), a client that agrees with the server accepts `Get` |
| KtServerProofs.GetAnswer | kt/server.go:344-358 | the answer of `Get` is the key put last, or that there is none |
| KtServerProofs.SelfMonAccepted | kt/server.go:70-82 | the owner of a uid whose puts have all returned accepts `SelfMon` |
| KtServerProofs.PutAccepted | kt/server.go:240-259 | right after the commit, the answer made from what `mapper0` computed before it is accepted |
| KtServerProofs.RandIsHash | kt/server.go:297-302 | the randomness of an opening is the hash of the secret followed by the label |
| KtServerProofs.RandsDiffer | kt/server.go:228-229 | without collisions, two versions, of any uids, are opened with different randomness |
| KtServerProofs.ValsDiffer | kt/server.go:289-302 | so their map values differ, in one epoch and for equal keys too |
| KtServerProofs.SecretsDiffer | kt/server.go:297-302 | servers with different secrets of one length open one version differently |
| KtServerProofs.StoredValsDiffer | kt/server.go:289-302 | in every reachable state no two registered versions have the same value in the public map |
| KtServerProofs.AuditErrs | kt/server.go:84-94 | an audit fails exactly past the last epoch, else it has what the server recorded |
| KtServerProofs.AuditorAccepts | alicebob/helpers.go:36-48 | a fresh auditor that replays the server's epochs rejects none and gets the server's map and digest at each |
| KtServerProofs.HonestAuditPasses | kt/client.go:136-170 | an audit with an auditor that has replayed all epochs of the server finds no error |
| KtServerProofs.ServerNeverFramed | kt/server.go:304-317 | the server's signatures are on one digest per epoch, and no evidence against it checks out |
| KtServerImpl.PreparedLabels | kt/server.go:240-246 | after the commit the label prepared for the new version is in the map and the next one is not: the assertions of `mapper1` hold |
| KtServerImpl.Server.constructor | kt/server.go:261-280 | the initial state has the empty tree as epoch 0 |
| KtServerImpl.Server.UpdEpochHist | kt/server.go:304-317 | appends the signed digest of the current map as the next epoch |
| KtServerImpl.Server.MarkDuplicates | kt/server.go:120-133 | exactly the requests whose uid came before in the batch are marked |
| KtServerImpl.Server.Mapper1 | kt/server.go:240-259 | proofs of the new version and of the bound in the current map, under the latest digest |
| KtServerImpl.Server.CommitAll | kt/server.go:168-193 | the locked part: the new state is the specified batch; its assertion never fires |
| KtServerImpl.Server.Worker | kt/server.go:117-215 | from batch to answers: keeps the invariant, the new state is the specified batch, and the responses, rejected or not, are as specified |
| KtServerImpl.Server.GetHist | kt/server.go:325-342 | proofs of all versions but the latest |
| KtServerImpl.Server.GetLatest | kt/server.go:344-358 | the latest version with its epoch decoded from the map and its opening re-derived |
| KtServerImpl.Server.ReadFacts | kt/server.go:325-366 | the server invariant makes all assertions of the read-only calls hold |
| KtServerImpl.Server.Get | kt/server.go:49-68 | the answer is the specified one; no assertion fires |
| KtServerImpl.Server.SelfMon | kt/server.go:70-82 | the answer is the specified one; no assertion fires |
| KtServerImpl.Server.Audit | kt/server.go:84-94 | errs exactly from the number of epochs on; else returns the recorded updates and signature |
| KtSync.UpdAdtrsAll | alicebob/helpers.go:36-48 | the loop over epochs ends after exactly those of the server; the auditor rejects none, has replayed them all and has the server's maps |
| KtPutReply.PutReplyRead | kt/serde.out.go:183-210 | a reply with a digest, encoded and followed by anything, reaches the client as it is |
| KtPutReply.PutReplyExact | kt/serde.out.go:191-210 | bytes that are read are the encoding of what is read, but for the byte of the flag, and the rest |
| KtPutReply.AnswersEncodable | kt/serde.out.go:183-190 | the reply encoder follows no nil pointer for any answer of a batch if and only if no uid occurs twice in it |
| KtPutReply.TwoPutsOfOneUid | kt/server.go:120-133 | a new server with two puts of one uid in a batch answers the first, and the encoder follows a nil pointer for the second |
| KtResend.BoundRejected | kt/client.go:236-243 | no proof of absence is accepted for a version that the server has |
| KtResend.SelfMonAcceptedIff | kt/client.go:111-134 | self-monitoring succeeds if and only if the client has counted all versions |
| KtResend.PutAcceptedIff | kt/client.go:31-65 | the answer to an applied put is accepted if and only if it is the version after those the client has counted |
| KtResend.AppliedVersions | kt/server.go:117-193 | over any batches, a uid gets one version for each batch with a put of it |
| KtResend.ResentPut | kt/rpc.go:80-95 | the call that waits for the copy at position i of a batch gets an encodable answer iff no earlier request of the batch has its uid, and the client accepts it iff, moreover, no earlier batch applied a copy |
| KtResend.CopiesAnswered | kt/rpc.go:85-89 | from a new server and a new client, with n copies in n batches, the last answer is accepted if and only if n is 1 |
| KtResend.LateCopyBreaksSelfMon | kt/client.go:111-134 | a client that took the answer to the first copy fails to self-monitor once the second is applied |
| KtResend.TwoCopiesOneBatch | kt/server.go:120-133 | of two copies in one batch, the second has an answer without an encoding, which the client does not accept, and one version is added |
| Correctness.CommitIsAfterBatch | kt/server.go:135-142 | committing with what `mapper0` computed before the lock equals the batch done at once: number of versions, epoch and labels are still valid |
| Correctness.NextKeeps | alicebob/alicebob.go:37-56 | every step of clients, worker and readers keeps the system invariant |
| Correctness.RunSysInv | alicebob/alicebob.go:37-56 | the invariant holds in every interleaving |
| Correctness.NoCallFails | alicebob/alicebob.go:37-56 | in every interleaving no `Put`, `Get` or `SelfMon` returns an error |
| Correctness.BobGetsAlicesKeyFromHonestServer | alicebob/alicebob.go:93-99 | without any auditor, every answer about Alice up to the epoch that her last put or self-monitoring returned agrees with her history, for any two clients, any calls, any interleaving |
| CorrectnessProgress.ErrorsShow | alicebob/alicebob.go:46-56 | an error that a call returns is recorded, and stays |
| CorrectnessProgress.PutCompletes | alicebob/alicebob.go:109-119 | whenever the worker waits for work, a put that is made, taken, mapped, committed and answered returns, is counted, and is the last entry of the history |
| CorrectnessProgress.GetCompletes | alicebob/alicebob.go:130-137 | a lookup that is made and served returns, and its answer is that of the server at its latest epoch |
| CorrectnessProgress.SelfMonCompletes | alicebob/alicebob.go:79-82 | after self-monitoring the history reaches just to the server's latest epoch |
| Correctness.NoAuditFails | alicebob/alicebob.go:84-91 | after any run, with an auditor that has replayed the server, no client's audit fails |
| Correctness.NoEvidenceEver | kt/evidence.go:21-36 | no evidence against the honest server checks out, after any run |
| WorkQ.StepKeepsInv | kt/workq.go:27-85 | every step of a caller or the worker keeps locks, queue, flags, responses and pending signals consistent |
| WorkQ.GetTakesAll | kt/workq.go:75-85 | `Get` takes all queued work, in order, and leaves the queue empty |
| WorkQ.EachCallInOneBatch | kt/workq.go:34-48 | in every interleaving the batches cut the order of the appends into consecutive pieces, no call occurs twice, and a returned call is in one |
| WorkQ.ReturnedHasResponse | kt/workq.go:34-48 | `Do` returns only when its own work is done, with the answer computed for its own request at its position in the one batch that has it |
| WorkQ.NoLostWakeup | kt/workq.go:27-48 | a sleeping worker with queued work, or a sleeping call that is done, has a signal pending from the thread that holds the lock |
| WorkQ.NoDeadlock | kt/workq.go:27-85 | while some call has not returned, some thread can step |
| WorkQ.RunsEnd | kt/workq.go:27-85 | under any schedule n calls and the worker take at most 40 n + 8 steps |
| WorkQ.StuckMeansReturned | kt/workq.go:27-85 | a run that can go no further has returned every call, with its response |
| KtPutQueue.PutReturnsOwnAnswer | kt/server.go:43-47 | in every interleaving, a returned put has its own answer: rejected exactly if an earlier put of the batch has its uid, else its key at the epoch of its batch |
| Marshal.ReadSlice2DLoop | marshalutil/marshalutil.go:107-130 | the loop, which goes on after an error over an empty buffer, errs exactly if some slice is bad, else returns all and the rest |
| Marshal.WriteSlice2DLoop | marshalutil/marshalutil.go:132-139 | appends the length and the encodings in order |
| Marshal.Slice2DRead | marshalutil/marshalutil.go:107-139 | reading undoes writing, with any tail |
| Marshal.ReadSlice3DLoop | marshalutil/marshalutil.go:141-164 | as for two levels |
| Marshal.WriteSlice3DLoop | marshalutil/marshalutil.go:166-173 | appends the length and the encodings in order |
| Marshal.Slice3DRead | marshalutil/marshalutil.go:141-173 | reading undoes writing, with any tail |
| Marshal.Slice2DExact | marshalutil/marshalutil.go:107-130 | bytes that are read are exactly the encoding of the value, and the rest |
| Marshal.Slice3DExact | marshalutil/marshalutil.go:141-164 | the same for three levels |
| Marshal.MembHideSlice1DEncode | kt/serde_misc.go:8-15 | appends the length and the encodings in order |
| Marshal.MembHideSlice1DDecode | kt/serde_misc.go:17-38 | errs exactly if some item is bad, else returns all and the rest |
| Marshal.MembHideSliceRead | kt/serde_misc.go:8-38 | decoding undoes encoding, with any tail |
| Marshal.MembHideSliceExact | kt/serde_misc.go:17-38 | bytes that are decoded are exactly the encoding of the items, and the rest |
| Marshal.MapstringSlbyteEncode | kt/serde_misc.go:40-48 | writes each entry of the map once, in any iteration order |
| Marshal.MapstringSlbyteDecode | kt/serde_misc.go:50-77 | errs exactly if some pair is bad, else returns the map in which later pairs win, and the rest |
| Marshal.MapRead | kt/serde_misc.go:40-77 | decoding gives back the map, whatever order it was written in, with any tail |
| Marshal.MapExact | kt/serde_misc.go:50-77 | bytes that are decoded are a length and so many pairs; the keys are those of the pairs, and the value of a key is that of the last pair with it |
| Serde.SliceGensAgree | serde/compiler.go:275-299 | encoder and decoder generators choose the two functions of one pair for every slice type, or both panic |
| Serde.FieldGensAgree | serde/compiler.go:428-557 | the same for every field |
| Serde.ConstsApplied | serde/compiler.go:258-266 | putting the constants in leaves a value unchanged if and only if its const invariants hold |
| Serde.EncodeAppends | serde/compiler.go:167-234 | a generated encoder appends the payload of the value with its constants put in |
| Serde.DecodeReads | serde/compiler.go:373-473 | a generated decoder given the payload of a value that meets its constants, with any tail, returns it and the tail |
| Serde.RoundTrip | serde/compiler.go:167-515 | for every accepted package, struct, value and tail, running the decoder's statements on what the encoder's wrote gives the value with its constants put in and exactly the tail, so the value itself if and only if its const invariants hold |
| Serde.FitsIff | serde/compiler.go:167-234 | the values that round-trip are those of the right types without nil pointers |
| Serde.EncodeIff | serde/compiler.go:363-371 | for every schema and value, nil pointers included, the generated encoder returns bytes if and only if it reads no field through a nil pointer |
| Serde.DecodedFits | serde/compiler.go:397-419 | a generated decoder returns no nil pointer |
| SerdeNames.NamesDecode | serde/compiler.go:322-341 | over separated names, type names are a prefix code up to what they do not show |
| SerdeNames.SameNameIff | serde/compiler.go:322-341 | over separated names, two types have one name if and only if they differ only in defined types inside and in the packages of structs |
| SerdeNames.MapNamesClashIff | serde/compiler.go:322-341 | two map types have one name if and only if one key's name begins the other's and the elements make up for it |
| SerdeNames.StructNamedLikeType | serde/compiler.go:322-341 | a struct named like another type makes map types clash, for every key |
| SerdeNames.StructNamedLikeSlice | serde/compiler.go:322-341 | so does a struct named like another one followed by Sl, for every element |
| SerdeNames.DefinedNotShown | serde/compiler.go:322-341 | map types that differ in a defined type inside clash |
| SerdeBuild.FieldBuildsIff | serde/compiler.go:211-299 | the statements of a field type-check exactly if the field meets the condition and its functions are declared for a fitting type |
| SerdeBuild.ImportsUsedIff | serde/compiler.go:108-127 | both imports of the generated file are used exactly if some field is a bool or a uint64 |
| SerdeBuild.BuildsIff | serde/compiler.go:167-557 | the generated file builds, beside some declarations of the supplied functions, if and only if the schema meets the condition |
| SerdeBuild.RoundTripIffBuildable | serde/compiler.go:167-557 | for every accepted package and value, nil pointers included, the generated code gives the value back if and only if the schema meets the condition and no pointer in the value is nil |
| SerdeBuild.SamePairSameTy | serde/compiler.go:309-341 | over separated names, one name of a pair of functions means one type |
| SerdeBuild.SeparatedNoClash | serde/compiler.go:309-341 | so with separated names no functions are needed for two types |
| SerdeCases.ConstPackageFails | serde/testdata/const/const.go:3-10 | the code for this schema does not build, whatever is supplied |
| SerdeCases.TypesGolden | serde/testdata/types/types.golden.go:10-46 | the generated statements for bools, bytes, integers and byte slices up to depth 3 |
| SerdeCases.ConstGolden | serde/testdata/const/const.golden.go:10-31 | the generated statements for constants |
| SerdeCases.AliasGolden | serde/testdata/alias/alias.golden.go:10-26 | the generated statements for an alias and a defined type |
| SerdeCases.NestGolden | serde/testdata/nest/nest.golden.go:22-43 | the generated statements for pointers to structs, slices of them, and maps |
| SerdeCases.TooDeep | serde/compiler.go:275-278 | the compiler panics on byte slices nested deeper than 3 |
| SerdeCases.NameFails | serde/compiler.go:428-450 | structs named like a variable of their decoder, an import, a predeclared name in use, a supplied pair or a function do not build |
| SerdeCases.BlankFails | serde/compiler.go:363-371 | a struct with a blank field does not build |
| SerdeCases.AliasPackageFails | serde/testdata/alias/alias.go:7-10 | the code for this schema does not build, whatever is supplied |
| SerdeCases.ElsewhereFails | serde/compiler.go:301-307 | a pointer to a struct without codecs does not build |
| SerdeCases.GenericFails | serde/compiler.go:167-183 | a struct with type parameters does not build |
| SerdeCases.TwoMapsFail | serde/compiler.go:309-341 | maps to byte slices and to pointers to a struct called Slbyte, in one package, do not build |
| SerdeCases.OnlyBytesFails | serde/compiler.go:108-127 | a package of byte slices only does not build |
| SerdeCases.NestBuilds | serde/testdata/nest/nest.go:3-11 | the code for this schema builds, with the two pairs of handlers it calls |
| Generated.SimpleEncode | serde/compiler.go:167-234 | the generated encoder of a struct of integers, bools and byte slices writes the fields in order |
| Generated.SimpleDecode | serde/compiler.go:373-473 | the generated decoder of such a struct reads the fields in order, from any bytes |
| Generated.PreSigDigGenerated | kt/serde.out.go:10-15 | the encoder that is signed with is the generated one |
| Generated.CommitOpenGenerated | kt/serde.out.go:66-71 | the encoder that is committed with is the generated one |
| Generated.MapValPreGenerated | kt/serde.out.go:83-88 | the encoder of map values is the generated one |
| Generated.MapValPreDecodeGenerated | kt/serde.out.go:89-99 | on any bytes, the decoder that auditors use is the generated one |
| Generated.MapLabelPreGenerated | kt/serde.out.go:49-54 | the encoder of the VRF's input is the generated one |
| Generated.MerkleProofGenerated | merkle/serde.out.go:10-17 | the encoder of Merkle proofs is the generated one |
| Generated.MerkleProofDecodeGenerated | merkle/serde.out.go:18-36 | on any bytes, the decoder that `Verify` uses is the generated one |
| KtPackage.KtBuilds | kt/serde.go:3-115 | the generated code of all messages of kt builds, with the two pairs of handlers of kt/serde_misc.go |
| KtPackage.KtHandlersInverse | kt/serde_misc.go:8-77 | these handlers are inverse, for every order in which a map is ranged over each time |
| KtPackage.KtRoundTrip | kt/serde.go:3-115 | every value of every message of kt has an encoding if and only if no pointer in it is nil, and then the encoding, followed by anything, is read back |
| KtWire.PutReplyGenerated | kt/serde.out.go:183-190 | the put reply encoder is the generated one, where it follows a nil pointer too |
| KtWire.RespArrivesIff | kt/serde.out.go:183-210 | a put reply has an encoding by the generated code, and is decoded from it, if and only if its digest pointer is not nil |
| KtWire.ReplyValsInjective | kt/serde.go:52-78 | no two replies are the same message |
| KtWireRuns.ShortProof | merkle/merkle.go:166-170 | proofs against a map of versions have a length that fits 8 bytes |
| KtWireRuns.RunShortVals | kt/server.go:289-295 | after every honest run all stored values are 48 bytes |
| KtWireRuns.EveryReadArrives | kt/rpc.go:27-44 | after every honest run, each answer to `Get` and `SelfMon` has an encoding and is decoded from it as it is |
| KtWireRuns.EveryPutReplyArrives | kt/rpc.go:18-26 | after every honest run, so does the worker's answer to the next put |

## Left out

- Networking and remote calls (`kt/rpc.go`, `advrpc`, `netffi`), with their retries: a reply is any value in the security setting and the server's result in the other.
- Inside of the hash, signature and VRF implementations (`cryptoffi`): interfaces only.
- Serde.RoundTrip: handlers of maps and of slices of structs are assumed inverse; those of kt are proved so in `KtPackage`. Elements of such slices are not nil. The decoder takes a bound on how deep structs nest, at least that of the value, because a Go decoder of a struct that points to itself need not end.
- SerdeBuild.BuildsIff: a struct is in the generated file or it is supplied, without the "no encode/decode needed" comments; `uint8` is written `byte`; structs do not take the name `_`.
- KtResend.ResentPut: about the server's state, its answers and the client's checks; resending is not a step of `Correctness`.
- WorkQ.EachCallInOneBatch: there is one worker thread and no spurious wake-up, as in Go.
- AliceBob.TestSecurity: one auditor, here and in `KtSync` (more auditors only add assumptions); Alice and Bob run one after the other, since the replies they get are arbitrary anyway.
- Package loading, printing, and comment parsing of `serde`: the model starts from a schema.
- `DoBatch`, benchmarks, sleeps, capacity hints such as `getProofLen`.
- Exhausting memory or time, as with huge decoded lengths or waiting in `CallAdtrGet`.
- Decode-then-encode identity for types with bools or maps, which does not hold.
- Decoders of the message structs other than those in `Generated` and `KtPutReply`, on bytes that no encoder wrote.
