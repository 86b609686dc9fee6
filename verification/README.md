# Verified model of the wallet core

This project models the core of a simplified-payment-verification wallet in Dafny and proves its central properties.
The modelled code is the C library in `Libraries/loafwallet-core` and one Swift encoder.

- `MerkleTree.dfy`, `MerkleBlock.dfy`, `RootCheck.dfy`: partial Merkle trees. Two recursive walks share flag and hash
  cursors; one rebuilds the root, the other collects the matched transactions. The last file says what accepting the root
  gives without a look at the cursors.
- `HashTable.dfy`, `HashSet.dfy`: the open-addressing hash set with linear probing, growth by mutual recursion, and
  deletion that stores the rest of the cluster again, also while a scan is under way.
- `Poly1305.dfy` (with `Bits.dfy`): the authenticator in 26-bit limbs, against sections 2.5 and 2.8 of RFC 7539.
- `Transaction.dfy`, `Ledger.dfy`, `TxOrder.dfy`, `Dependents.dfy`, `AddressChain.dfy`, `CoinSelection.dfy`,
  `SmallerTx.dfy`, `Attempts.dfy`, `Relevance.dfy`, `Sending.dfy`, `Wallet.dfy`: the wallet. The class `Wallet` holds the
  fields of the program's wallet and changes them in place; the other files say what the ledger, the sorted list, the
  removal of dependents, the address gap, the choice of inputs, the attempts to make a smaller transaction and the
  transactions that concern the wallet are, and prove what they promise, up to what sending does to the balance.
- `Lockstep.dfy`, `Freshness.dfy`, `FreshnessExamples.dfy`: when the recorded ledger is still that of the list. It is
  called fresh if it agrees with the one a recomputation would give in its flags (what is invalid, pending, spent and
  used), its unspent outputs and its balance.
- `BlockChain.dfy`, `PeerManager.dfy`: the tree of blocks, the case distinction on a relayed block, and chain
  reorganisation with its effect on the wallet.
- `Radix.dfy`, `Base58.dfy`: Base58 and Base58Check in both directions, and the Swift encoder.
- `SBoxes.dfy`, `Aes.dfy`, `AesInPlace.dfy`, `AesStandard.dfy`, `AesExample.dfy`, `Bip38.dfy`: AES-256 on one block with
  its key schedule run forwards and backwards in place, against FIPS 197 down to the field behind the substitution table,
  and private keys encrypted with a passphrase.
- `Sequences.dfy`, `Bytes.dfy`, `Scripts.dfy`, `TxCodec.dfy`, `TxBuffer.dfy`: the serialized form of transactions, scripts
  that pay to an address, and the writers and readers that work on a buffer.
- `BitWindows.dfy`, `Hashing.dfy`, `Bip39.dfy`: mnemonic phrases.

Methods follow the loops and the in-place updates of the program and are proved against functions; lemmas then state
what those functions mean. Words are natural numbers with every wrap-around written out where the code relies on it
(Poly1305, AES), and proved absent otherwise where the table says so. Hashes, scrypt, address derivation and the
conversion between scripts and addresses are parameters of which only the stated assumptions are used; the clock and
random numbers are parameters as well. Transactions and blocks are identified by their hashes, so a reference to one is
its hash and the graph of transactions is acyclic: a ghost rank decreases from each transaction to those it spends.

Four properties one might expect do not hold of the code; each has its exact condition and an input that shows it fails.

- The Merkle root check alone does not rule out invented transactions for every count of transactions
  (`RootCheck.CheckSufficesAlwaysFor`, `RootCheck.ZeroHash`), not even if no supplied hash is zero
  (`RootCheck.CheckSufficesFor`, `RootCheck.FiveTransactions`).
- The length `BRTransactionSerialize` reports for a buffer that is too short need be neither zero nor the length needed
  (`TxBuffer.ZeroOrAll`, `TxBuffer.ShortBuffer`).
- The recorded ledger need not be that of the list after a confirmation (`Freshness.StaysFresh`): a pending transaction
  may be released (`FreshnessExamples.ReleasedByHeight`), or no longer be followed by an accepted one
  (`FreshnessExamples.HeldBackByOrder`).
- The smaller transaction the wallet tries to make, when the inputs make one too large, need not be covered by the inputs
  that fit (`SmallerTx.SmallerIsEnough`), and the attempts need not end (`Attempts.ForeverIff`, `Attempts.AttemptsEnd`,
  `SmallerTx.StuckExample`).

## Model

| member | source | states |
|---|---|---|
| `MerkleBlock.ComputeCeilLog2` | Libraries/loafwallet-core/BRMerkleBlock.c:37-43 | For every count below 2^31 the loop ends and gives the height of the Merkle tree with that many leaves |
| `MerkleBlock.CeilLog2IsHeight` | Libraries/loafwallet-core/BRMerkleBlock.c:37-43 | The bit count the loop computes and the height defined by halving the rows agree for every positive count |
| `MerkleTree.BlockTreeFacts` | Libraries/loafwallet-core/BRMerkleBlock.c:54-70 | The reference tree of a block has that height, the full Merkle root (odd rows repeat their last node), the transactions as leaves and the matched ones in block order |
| `MerkleTree.PackFlagsBit` | Libraries/loafwallet-core/BRMerkleBlock.c:179 | The flag the walks read at a bit position, least significant bit first, is the flag the encoder put there |
| `MerkleBlock.RootR` | Libraries/loafwallet-core/BRMerkleBlock.c:229-252 | The recursive root walk, moving the shared cursors in place, does what the walk specification says, defence branch and missing hashes included |
| `MerkleBlock.TxHashesR` | Libraries/loafwallet-core/BRMerkleBlock.c:173-197 | The recursive transaction walk moves the same cursors and writes the matched hashes, in order and no more than there is room for |
| `MerkleBlock.TxHashes` | Libraries/loafwallet-core/BRMerkleBlock.c:201-208 | The number of matches without an array; with one, the first matched hashes that fit |
| `MerkleBlock.TxWalkUsesHashes` | Libraries/loafwallet-core/BRMerkleBlock.c:173-208 | Every transaction found uses up one of the hashes, so that the count never reaches the limit that stands for no array |
| `MerkleBlock.RootIsValid` | Libraries/loafwallet-core/BRMerkleBlock.c:257-270 | The root check accepts a block exactly if it has no transactions or the walk gives the header's root |
| `MerkleBlock.WalkEncoded` | Libraries/loafwallet-core/BRMerkleBlock.c:173-252 | On an encoded subtree both walks end where the encoding ends, with its root and its matched transactions; every node they visit has a flag and a hash left, and a missing right branch is met exactly when no hashes are left |
| `MerkleBlock.Completeness` | Libraries/loafwallet-core/BRMerkleBlock.c:173-252 | For every list of transactions whose tree has no zero node and no equal siblings, and every match set, the root check accepts the encoding for the full root and no other, without the defence branch; exactly the matched transactions are found, in block order, and hashes run out exactly at the missing right branches; below 2^31 transactions the encoding has the sizes the methods need |
| `MerkleBlock.CursorsAgree` | Libraries/loafwallet-core/BRMerkleBlock.c:178-251 | Unless the defence branch is taken, both walks move the hash and flag cursors identically, on any block |
| `MerkleBlock.ZeroIsMissing` | Libraries/loafwallet-core/BRMerkleBlock.c:229-252 | With a hash that is never zero and nonzero supplied hashes, a branch that evaluates to zero returns no transaction |
| `MerkleBlock.SoundWalk` | Libraries/loafwallet-core/BRMerkleBlock.c:229-252 | A walk that ends with the hash of a genuine subtree returns leaves of that subtree, in order |
| `MerkleBlock.Soundness` | Libraries/loafwallet-core/BRMerkleBlock.c:173-252 | If the hash is never zero and collision free on a genuine list of totalTx leaves, the supplied hashes are not zero, the computed root is that of the list, and the root walk ends without the mark of the defence branch, every transaction found is one of those leaves, in order |
| `MerkleBlock.WalkStaysInside` | Libraries/loafwallet-core/BRMerkleBlock.c:234-251 | The hash cursor of the root walk never leaves the supplied hashes, except for the mark the defence branch sets |
| `RootCheck.BlockTreeKind` | Libraries/loafwallet-core/BRMerkleBlock.c:54-70 | Half the number of transactions, rounded up, tells where right children are missing: for a power of two right above the leaves only, otherwise also two or more rows above them |
| `RootCheck.CheckedWalk` | Libraries/loafwallet-core/BRMerkleBlock.c:229-252 | Where children are missing right above the leaves only, and no supplied hash is zero or no child is missing at all, a walk that gives the root of the tree ends inside the hashes, so that no defence hit is hidden in a branch taken for missing, and what is found are leaves of the tree, in order |
| `RootCheck.CheckedSoundness` | Libraries/loafwallet-core/BRMerkleBlock.c:257-270 | With a hash that is collision free on the genuine list, soundness follows from the root check alone, which is all its callers see, if the count is a power of two, or if half of it, rounded up, is one and no supplied hash is zero |
| `RootCheck.ForgedAccepted` | Libraries/loafwallet-core/BRMerkleBlock.c:229-270 | For every other count the root check accepts a block of nonzero hashes in which any nonzero hash is found, twice, whatever the genuine transactions, as long as their tree has no zero node and no equal siblings |
| `RootCheck.CheckSufficesFor` | Libraries/loafwallet-core/BRMerkleBlock.c:173-270 | With a hash that is collision free on the genuine list, the root check guarantees for all blocks of nonzero hashes that only genuine transactions are found, in order, exactly if half the number of transactions, rounded up, is a power of two |
| `RootCheck.FullTrees` | Libraries/loafwallet-core/BRMerkleBlock.c:54-70 | No child is missing in the tree exactly if the number of transactions is a power of two |
| `RootCheck.ZeroAccepted` | Libraries/loafwallet-core/BRMerkleBlock.c:229-270 | For 3, 7, 15, ... transactions the root check accepts a block in which the zero hash is found, standing for the missing child |
| `RootCheck.CheckSufficesAlwaysFor` | Libraries/loafwallet-core/BRMerkleBlock.c:173-270 | The same guarantee for all blocks, zero hashes or not: exactly if the number of transactions is a power of two |
| `RootCheck.FiveTransactions` | Libraries/loafwallet-core/BRMerkleBlock.c:229-270 | The forged block for five transactions, spelled out |
| `RootCheck.ZeroHash` | Libraries/loafwallet-core/BRMerkleBlock.c:229-252 | The block with a zero hash for three transactions, spelled out |
| `HashSet.SizesGrow` | Libraries/loafwallet-core/BRSet.c:32-37 | Every table but the first keeps an empty bucket at its load limit, and the next table is larger |
| `HashSet.NextLevel` | Libraries/loafwallet-core/BRSet.c:49-69 | Asking for the capacity of one table size selects the next one |
| `HashTable.ProbeFinds` | Libraries/loafwallet-core/BRSet.c:99-117 | A probe stops at an item exactly if an equal one is stored, and then at that one |
| `HashTable.EmptyBucket` | Libraries/loafwallet-core/BRSet.c:99-117 | A table within its load limit has an empty bucket, so that probes end |
| `HashTable.CountIsExact` | Libraries/loafwallet-core/BRSet.c:162-167 | Occupied buckets and stored items are equally many |
| `HashTable.LandsBetween` | Libraries/loafwallet-core/BRSet.c:120-150 | An item taken out during the clean-up is stored again between the freed bucket and its old one, across the end of the table too |
| `HashTable.CleanStep` | Libraries/loafwallet-core/BRSet.c:134-147 | One round of the clean-up keeps its invariant and the stored items |
| `HashTable.CleanEnd` | Libraries/loafwallet-core/BRSet.c:134-147 | The clean-up ends at the end of the cluster with every item reachable again |
| `HashSet.HashSet.Probe` | Libraries/loafwallet-core/BRSet.c:104-111 | The probe loop ends at the bucket of an equal item or at an empty one |
| `HashSet.HashSet.Get` | Libraries/loafwallet-core/BRSet.c:193-208 | Finds the stored equal item, or there is none |
| `HashSet.HashSet.Contains` | Libraries/loafwallet-core/BRSet.c:170-173 | True exactly if an equal item is stored |
| `HashSet.HashSet.Add` | Libraries/loafwallet-core/BRSet.c:99-117 | The set with the item in the place of an equal one, which is returned; the count stays exact; the table grows by one size exactly when the limit is passed |
| `HashSet.HashSet.Grow` | Libraries/loafwallet-core/BRSet.c:86-96 | The same items in a table of the next size, and no further growth on the way through Union and Add |
| `HashSet.HashSet.Union` | Libraries/loafwallet-core/BRSet.c:269-281 | The items of both sets, those of the other one prevailing; also for a set and itself |
| `HashSet.HashSet.Remove` | Libraries/loafwallet-core/BRSet.c:120-150 | The set without the equal item, which is returned; no growth; items move only back towards the freed bucket |
| `HashSet.HashSet.Minus` | Libraries/loafwallet-core/BRSet.c:284-296 | Exactly the items without an equal one in the other set remain |
| `HashSet.HashSet.Intersect` | Libraries/loafwallet-core/BRSet.c:299-315 | Deleting while scanning by index ends, with exactly the items that have an equal one in the other set; also for a set and itself |
| `HashSet.ScanKept` | Libraries/loafwallet-core/BRSet.c:299-315 | Re-insertion never moves an unexamined item into a bucket already scanned |
| `HashSet.HashSet.Count` | Libraries/loafwallet-core/BRSet.c:162-167 | The number of stored items |
| `HashSet.HashSet.Perform` | Libraries/loafwallet-core/BRSet.c:99-208 | Any sequence of additions, removals and look-ups gives the results and the contents of the reference set |
| `HashSet.BehaviourIsUnique` | Libraries/loafwallet-core/BRSet.c:99-208 | The reference leaves no choice of results or contents |
| `Poly1305.Columns` | Libraries/loafwallet-core/BRCrypto.c:701-705 | None of the 64-bit column sums overflows, and they are the columns of the product |
| `Poly1305.Carry` | Libraries/loafwallet-core/BRCrypto.c:708-710 | The partial reduction keeps the value modulo 2^130 - 5 and bounds the limbs |
| `Poly1305.MultiplyModP` | Libraries/loafwallet-core/BRCrypto.c:700-710 | Multiplication in place, modulo 2^130 - 5, without overflow |
| `Poly1305.AddBlock` | Libraries/loafwallet-core/BRCrypto.c:694-698 | The limbs of a block with its top bit are added exactly |
| `Poly1305.ClampLimbs` | Libraries/loafwallet-core/BRCrypto.c:680-684 | The masks on the shifted words are the limbs of the clamping mask of RFC 7539 |
| `Poly1305.LoadR` | Libraries/loafwallet-core/BRCrypto.c:680-684 | The multiplier is the clamped first half of the key |
| `Poly1305.FullyCarry` | Libraries/loafwallet-core/BRCrypto.c:715-716 | After the full carry every limb is below 2^26 and the value modulo 2^130 - 5 is kept |
| `Poly1305.ReduceModP` | Libraries/loafwallet-core/BRCrypto.c:718-724 | The branch-free selection leaves the value reduced modulo 2^130 - 5 |
| `Poly1305.Pack` | Libraries/loafwallet-core/BRCrypto.c:726-728 | The words are the value modulo 2^128 |
| `Poly1305.AddPad` | Libraries/loafwallet-core/BRCrypto.c:730-734 | The second half of the key is added modulo 2^128 |
| `Poly1305.Finish` | Libraries/loafwallet-core/BRCrypto.c:713-735 | The final steps leave the tag of the accumulator |
| `Poly1305.Compress` | Libraries/loafwallet-core/BRCrypto.c:675-740 | For every message the limbs stand for the accumulator of section 2.5 of RFC 7539, and after the final call for the tag |
| `Poly1305.Mac` | Libraries/loafwallet-core/BRCrypto.c:744-755 | For every key and message the sixteen bytes are the authenticator of section 2.5 of RFC 7539 |
| `Poly1305.AccumulateConcat` | Libraries/loafwallet-core/BRCrypto.c:675-755 | Compressing whole blocks first and then the rest is compressing everything |
| `Poly1305.CompressPadded` | Libraries/loafwallet-core/BRCrypto.c:825-832 | Whole blocks first and the rest in a zero-filled buffer: the data padded to a multiple of sixteen bytes |
| `Poly1305.AeadMac` | Libraries/loafwallet-core/BRCrypto.c:825-837 | The tag is the authenticator of section 2.8 of RFC 7539: of the padded associated data, the padded ciphertext and their lengths in eight bytes each |
| `Poly1305.AeadLayout` | Libraries/loafwallet-core/BRCrypto.c:825-835 | Where the two parts, the zeros behind each and the two lengths stand in the authenticated data: associated data first, lengths least significant byte first |
| `Ledger.Conservation` | Libraries/loafwallet-core/BRWallet.c:151-244 | For every list the balance is the sum of the unspent outputs and equals received minus sent, and there is one history entry for each transaction |
| `Ledger.TotalsBounded` | Libraries/loafwallet-core/BRWallet.c:236-237 | Balance and totals never exceed the value of all outputs listed, so they fit if that does |
| `Ledger.NoDoubleSpend` | Libraries/loafwallet-core/BRWallet.c:172-188 | Two transactions that are not invalid share no input if the later one is unconfirmed |
| `Ledger.InvalidExactly` | Libraries/loafwallet-core/BRWallet.c:172-183 | A listed transaction is invalid exactly if it is unconfirmed and an earlier one that is not invalid shares an input with it, or it spends an earlier one that is invalid |
| `Ledger.ChildOfInvalid` | Libraries/loafwallet-core/BRWallet.c:173-175 | An unconfirmed transaction that spends an invalid one listed before is invalid |
| `Ledger.PendingExactly` | Libraries/loafwallet-core/BRWallet.c:190-206 | A listed transaction is pending exactly if it is unconfirmed, not invalid, and larger than 100000 bytes, paying less than 546, replaceable by BIP 125, not final for the block after the next one, or spending an earlier pending one; a clock before 1985 adds one case |
| `Ledger.FlagsAre` | Libraries/loafwallet-core/BRWallet.c:177-208 | The invalid and the pending set hold exactly the listed transactions with that status |
| `Ledger.UsedAre` | Libraries/loafwallet-core/BRWallet.c:217-219 | An address is in use exactly if an output of an accepted listed transaction pays it |
| `Ledger.TotalsAre` | Libraries/loafwallet-core/BRWallet.c:236-239 | Received and sent are the sums of all rises and of all falls in the balance history, whose last entry is the balance |
| `Ledger.HistoryIs` | Libraries/loafwallet-core/BRWallet.c:238 | Entry i of the history is the balance of the list up to transaction i |
| `Ledger.UtxosDistinct` | Libraries/loafwallet-core/BRWallet.c:217-234 | The unspent outputs are distinct and belong to listed transactions |
| `Ledger.UtxosKnown` | Libraries/loafwallet-core/BRWallet.c:217-234 | Every unspent output is an output of a known transaction |
| `Ledger.UtxosAre` | Libraries/loafwallet-core/BRWallet.c:217-234 | An output is unspent exactly if an accepted listed transaction pays it to the wallet and it was not spent at the last sweep |
| `Ledger.SpentOrigin` | Libraries/loafwallet-core/BRWallet.c:186-188 | Every spent output is spent by some listed transaction that is not invalid |
| `Ledger.OrderIrrelevant` | Libraries/loafwallet-core/BRWallet.c:151-244 | If all transactions are confirmed, every ordering of the list gives the same unspent outputs and the same balance |
| `Wallet.Wallet.CheckInvalid` | Libraries/loafwallet-core/BRWallet.c:172-176 | The loop finds out whether some input is already spent or spends an invalid transaction |
| `Wallet.Wallet.CheckPending` | Libraries/loafwallet-core/BRWallet.c:191-204 | The loops find out whether the transaction is too large, pays dust, is postponed or spends a pending transaction |
| `Wallet.Wallet.Sweep` | Libraries/loafwallet-core/BRWallet.c:228-234 | Deleting from the end leaves exactly the outputs that are not spent, in order, and their sum |
| `Wallet.Wallet.Round` | Libraries/loafwallet-core/BRWallet.c:168-240 | One round of the loop is one step of the ledger |
| `Wallet.Wallet.UpdateBalance` | Libraries/loafwallet-core/BRWallet.c:151-244 | The recomputed fields are those the list of transactions determines |
| `Wallet.Wallet.TxIsAscending` | Libraries/loafwallet-core/BRWallet.c:72-91 | The recursion over known parents ends and decides the order by height and dependency |
| `Wallet.Wallet.TxChainIndex` | Libraries/loafwallet-core/BRWallet.c:61-70 | The last position in the chain of an address the transaction pays |
| `Wallet.Wallet.TxCompare` | Libraries/loafwallet-core/BRWallet.c:93-104 | The three-way comparison by order and then by address |
| `Wallet.Wallet.InsertTx` | Libraries/loafwallet-core/BRWallet.c:107-119 | The transaction stands behind the last one that does not belong after it, the others as before |
| `TxOrder.InsertSorted` | Libraries/loafwallet-core/BRWallet.c:107-119 | Insertion keeps the list distinct and sorted by height |
| `TxOrder.InsertAfterParent` | Libraries/loafwallet-core/BRWallet.c:72-119 | A transaction is never inserted before a listed parent of the same height |
| `TxOrder.InsertAfterAncestor` | Libraries/loafwallet-core/BRWallet.c:72-119 | Nor before any listed transaction of the same height that it descends from through known ones, if heights do not fall along the way |
| `TxOrder.InsertByAddress` | Libraries/loafwallet-core/BRWallet.c:93-119 | Among transactions that height and descent leave unordered, insertion keeps the list in the order of the addresses they pay: on the internal chain if all pay that, on the external one if none does |
| `Wallet.Wallet.ContainsTx` | Libraries/loafwallet-core/BRWallet.c:122-138 | True exactly if the transaction touches the wallet: some output pays it or some input spends a known output that did; Relevance.SpenderTouches says what that catches |
| `Relevance.SpenderTouches` | Libraries/loafwallet-core/BRWallet.c:130-135 | A transaction with an input among the unspent outputs of the ledger touches the wallet |
| `Relevance.NearlySpenderTouches` | Libraries/loafwallet-core/BRWallet.c:130-135 | So does one that spends an output recorded as unspent, if the recorded ledger is right but for outputs only pending transactions spend |
| `Relevance.StrangerChangesNothing` | Libraries/loafwallet-core/BRWallet.c:122-138 | A transaction that does not touch the wallet adds no unspent output and spends none |
| `Wallet.Wallet.TxUnconfirmedBefore` | Libraries/loafwallet-core/BRWallet.c:425-442 | The transactions returned are the last ones of the list, exactly those at or above the height, as many as there is room for |
| `TxOrder.ScanIsExact` | Libraries/loafwallet-core/BRWallet.c:433 | In a sorted list, where a scan from the end first meets a lower height everything before is lower |
| `Wallet.Wallet.RegisterTransaction` | Libraries/loafwallet-core/BRWallet.c:712-753 | A signed transaction that pays the wallet is registered, and, if the ledger was right but for outputs only pending transactions spend, so is one that spends an unspent output. What is added, refused or merely remembered; the list stays sorted, the ledger is recomputed, and both chains keep their gap; the ledger is fresh for the addresses generated afterwards exactly if no unswept output of an accepted transaction pays one of them |
| `Wallet.Wallet.Reinsert` | Libraries/loafwallet-core/BRWallet.c:952-957 | The transaction is taken out and inserted where its new height puts it; a list without it stays as it is; the list is sorted again |
| `Wallet.Wallet.UpdateOne` | Libraries/loafwallet-core/BRWallet.c:946-965 | One transaction gets its height and time: moved in the list, kept, or forgotten if it is confirmed and does not touch the wallet |
| `Wallet.Wallet.UpdateTransactions` | Libraries/loafwallet-core/BRWallet.c:932-971 | Exactly the given transactions get the height and time or are forgotten; the list keeps its members and stays sorted; the ledger is recomputed exactly if one of them was pending or invalid; a fresh ledger stays fresh after a confirmation exactly if it was recomputed or both conditions of Freshness.StaysFresh hold |
| `TxOrder.UpdatedAllTouch` | Libraries/loafwallet-core/BRWallet.c:932-971 | If every listed transaction touches the wallet, an update forgets none of them and all still do |
| `TxOrder.UpdatedKnown` | Libraries/loafwallet-core/BRWallet.c:946-965 | An update to unconfirmed forgets nothing; of what a confirmation changes only what touches the wallet stays known, and only strangers are forgotten |
| `Wallet.Wallet.SetTxUnconfirmedAfter` | Libraries/loafwallet-core/BRWallet.c:974-995 | Exactly the listed transactions above the height lose their confirmation; the list stays sorted; a fresh ledger stays fresh exactly if there was such a transaction or the new chain height releases or postpones none |
| `Lockstep.FlagsStay` | Libraries/loafwallet-core/BRWallet.c:151-244 | Then the flags alone (invalid, pending, spent, used) agree exactly if no transaction that still waits becomes pending or ceases to be |
| `Freshness.StaysFresh` | Libraries/loafwallet-core/BRWallet.c:151-244 | When accepted transactions are confirmed, heights of confirmed ones change and the list is reordered accordingly, the old ledger agrees with the one of the new list, in its flags, its unspent outputs and its balance, exactly if no transaction that still waits becomes pending or ceases to be, and every pending one that spends an accepted output of the wallet and is followed by an accepted transaction is followed by one that still waits |
| `Freshness.UpdateConfirming` | Libraries/loafwallet-core/BRWallet.c:932-971 | An update with a block height that leads to no recomputation is such a change |
| `Freshness.NothingPendingStays` | Libraries/loafwallet-core/BRWallet.c:190-206 | With nothing pending and a higher chain both conditions hold |
| `Lockstep.UnlockedKept` | Libraries/loafwallet-core/BRWallet.c:197-203 | Transactions without a lock to a block height stay as pending as they are, whatever the chain height |
| `FreshnessExamples.ReleasedByHeight` | Libraries/loafwallet-core/BRWallet.c:932-971 | A payment locked up to height 10 is pending below height 9 and pays from there on: the update with a block of height 9 without it recomputes nothing, and the recorded ledger, fresh before, is not fresh after it |
| `FreshnessExamples.HeldBackByOrder` | Libraries/loafwallet-core/BRWallet.c:228-234 | A pending payment that spends an output of the wallet, and an accepted one behind it: confirming the second recomputes nothing and changes no flag, but the recorded balance is 1000 where the list gives 2000 |
| `Freshness.NearlyIsRight` | Libraries/loafwallet-core/BRWallet.c:151-244 | A ledger that is right but for outputs only pending transactions spend is right exactly if it records such an output exactly when no accepted transaction follows its spender |
| `Freshness.MoreAddresses` | Libraries/loafwallet-core/BRWallet.c:334-378 | With more addresses the ledger of a list is the same exactly if no output of an accepted transaction that has not been swept pays a new one |
| `Wallet.Wallet.ListTransactions` | Libraries/loafwallet-core/BRWallet.c:270-279 | The signed transactions given, each hash once, in a sorted list |
| `Wallet.Wallet.Load` | Libraries/loafwallet-core/BRWallet.c:247-291 | A new wallet is sorted, its ledger is that of its list, both chains have their gap after the addresses in use, and it is kept exactly if there is no transaction or the first one touches it |
| `Wallet.Wallet.FindDependents` | Libraries/loafwallet-core/BRWallet.c:770-780 | The scan that stops at the first lower height finds all listed transactions that spend the given one |
| `Wallet.Wallet.RemoveTransaction` | Libraries/loafwallet-core/BRWallet.c:756-823 | The recursion ends; the transaction is gone; what is left is as before and in order, and spends nothing removed; everything removed depends on the transaction |
| `Dependents.DependentsGone` | Libraries/loafwallet-core/BRWallet.c:756-823 | What is left is exactly what does not depend on the removed transaction through listed ones |
| `Dependents.AllDependents` | Libraries/loafwallet-core/BRWallet.c:756-823 | Nothing that depends on the removed transaction can stay |
| `Dependents.ShrunkValid` | Libraries/loafwallet-core/BRWallet.c:756-823 | Removal keeps the list distinct, sorted and with parents first |
| `Dependents.ShrunkTouch` | Libraries/loafwallet-core/BRWallet.c:756-823 | A listed transaction that touched the wallet still does after a removal |
| `Wallet.Wallet.ExtendChain` | Libraries/loafwallet-core/BRWallet.c:334-348 | The loops end, at a failed derivation or with the gap, and generate no address more; the start of the gap follows the last used address |
| `Wallet.Wallet.RebuildAddrs` | Libraries/loafwallet-core/BRWallet.c:365-373 | The known addresses are those of both chains |
| `Wallet.Wallet.ReplaceChain` | Libraries/loafwallet-core/BRWallet.c:356-374 | Whether or not the chain moved, the known addresses are those of both chains |
| `Wallet.Wallet.UnusedAddrs` | Libraries/loafwallet-core/BRWallet.c:322-378 | The addresses returned are exactly the gap after the last used one, or none; no chain loses an address; if derivation never fails the gap is always there |
| `AddressChain.AfterLastUsed` | Libraries/loafwallet-core/BRWallet.c:334-335 | The position after the last used address: nothing behind it is used |
| `CoinSelection.TxFeeCovers` | Libraries/loafwallet-core/BRWallet.c:52-58 | The fee is at least the relay fee and at least the fee rate for the size |
| `CoinSelection.TxFeeGrows` | Libraries/loafwallet-core/BRWallet.c:52-58 | A larger transaction never costs less |
| `CoinSelection.TxFeeIsLeast` | Libraries/loafwallet-core/BRWallet.c:52-58 | The fee is the least that is enough: whole thousands for every started kilobyte, and whole hundreds for the fee rate |
| `CoinSelection.MinOutputAmountIsLeast` | Libraries/loafwallet-core/BRWallet.c:1122-1131 | The dust limit is the least amount that is not below the fixed limit raised in proportion to the fee rate |
| `CoinSelection.FeeForBounds` | Libraries/loafwallet-core/BRWallet.c:630-633 | The fee exceeds that for the size by less than 100, and if the balance pays for it, leaves a balance of whole hundreds |
| `CoinSelection.ShuffleOutputs` | Libraries/loafwallet-core/BRTransaction.c:449-463 | The shuffle the random numbers determine; it keeps the outputs as a multiset, their value and their size, whatever the random numbers |
| `CoinSelection.EveryOrder` | Libraries/loafwallet-core/BRTransaction.c:449-463 | Every order of the outputs comes out for some random numbers within the ranges asked for |
| `Wallet.Wallet.GetMaxOutputAmount` | Libraries/loafwallet-core/BRWallet.c:1134-1162 | The amount that CoinSelection.MaximumIsExact shows to be the maximum |
| `Wallet.Wallet.ChooseInputs` | Libraries/loafwallet-core/BRWallet.c:590-637 | The inputs are the fewest unspent outputs, in order, that cover amount and fee exactly or with room for change, or all of them; the fee is that of their number, rounded up; or they are one more than fit, at the first number that exceeds the size limit, with value and fee of those that fit |
| `Wallet.Wallet.ChangeOutput` | Libraries/loafwallet-core/BRWallet.c:646-650 | The change pays the first unused internal address |
| `Wallet.Wallet.CreateTxForOutputs` | Libraries/loafwallet-core/BRWallet.c:565-655 | The change goes to the first unused internal address, if derivation never fails, and the outputs are shuffled. A transaction that is made spends distinct unspent outputs, keeps the requested outputs, pays at least the fee for its own size and change above the minimum, or at most the minimum too much; it takes the fewest unspent outputs, in order, that are enough; it is too large only if no fewer unspent outputs are enough than those that exceed the limit, and the outputs of the next attempt are given; it is refused only if everything unspent does not cover it, so never if the balance pays the outputs and the fee of spending everything |
| `CoinSelection.MadeWithChange` | Libraries/loafwallet-core/BRWallet.c:641-652 | With a change output of 25 bytes of script and fewer than 252 outputs the fee covers the size with the change |
| `CoinSelection.MadeWithoutChange` | Libraries/loafwallet-core/BRWallet.c:641-652 | Without change the overpaid amount is at most the minimum output |
| `CoinSelection.MadeFits` | Libraries/loafwallet-core/BRWallet.c:600-603 | A transaction that is made, with its change, is no larger than the size limit, under the same conditions |
| `CoinSelection.RestIsExact` | Libraries/loafwallet-core/BRWallet.c:636-644 | Unless all unspent outputs were needed, a transaction without change overpays by nothing or by exactly the dust limit |
| `CoinSelection.MadeIsFinal` | Libraries/loafwallet-core/BRTransaction.c:325-336 | A transaction that is made is unsigned, does not signal replacement, and is final at every height and time |
| `Sending.SentIsAccepted` | Libraries/loafwallet-core/BRWallet.c:165-206 | A wallet whose transactions are all confirmed accepts what it made from its unspent outputs, once signed, unless it pays dust or is too large |
| `Sending.BalanceAfterSending` | Libraries/loafwallet-core/BRWallet.c:151-655 | Its balance has then fallen by exactly the requested amounts and what the transaction leaves for the miner |
| `Sending.SentToTheEnd` | Libraries/loafwallet-core/BRWallet.c:72-119 | And the transaction stands at the end of the list |
| `Sending.ExtendedRun` | Libraries/loafwallet-core/BRWallet.c:151-244 | The ledger of a list does not depend on which other transactions are known |
| `Wallet.Wallet.CreateTransaction` | Libraries/loafwallet-core/BRWallet.c:551-561 | The change goes to the first unused internal address, if derivation never fails. Every positive amount up to the maximum is sent to a standard address, if the balance is the sum of the unspent outputs, or exceeds the size limit at exactly that number of unspent outputs before any fewer were enough |
| `CoinSelection.MaximumIsPayable` | Libraries/loafwallet-core/BRWallet.c:1134-1162 | The maximum leaves enough for the fee of spending everything to one standard address, however much that is |
| `CoinSelection.MaximumIsExact` | Libraries/loafwallet-core/BRWallet.c:1134-1162 | To a standard address of 25 bytes of script, an amount can be paid with the fee of spending everything exactly if it is no more than the maximum |
| `SmallerTx.SmallerAmount` | Libraries/loafwallet-core/BRWallet.c:601-616 | When the last output is reduced, the smaller request together with the fee of the attempt before is exactly the value of the inputs that fit; sizes and the other outputs stay |
| `SmallerTx.SmallerIsEnough` | Libraries/loafwallet-core/BRWallet.c:601-637 | The inputs that fit meet the smaller request exactly if the rest of the balance is a multiple of 100, since its own fee is rounded anew |
| `SmallerTx.StuckForever` | Libraries/loafwallet-core/BRWallet.c:597-637 | If the rest of the balance is no multiple of 100, no fewer inputs help and the last output can bear the reduction, every further attempt exceeds the limit at the same place |
| `SmallerTx.StuckExample` | Libraries/loafwallet-core/BRWallet.c:597-637 | A wallet of seven hundred unspent outputs of equal worth that is to pay six hundred and eighty times that worth is such a case |
| `Attempts.NextEnds` | Libraries/loafwallet-core/BRWallet.c:597-637 | If the rest of the balance is a multiple of 100, the attempt after a reduction ends, with fewer inputs than exceeded the limit |
| `Attempts.NextHits` | Libraries/loafwallet-core/BRWallet.c:597-637 | The attempt after a reduction exceeds the limit at the same place exactly if no fewer inputs are enough for it |
| `Attempts.AttemptIs` | Libraries/loafwallet-core/BRWallet.c:597-637 | While the program reduces at one place, attempt k + 1 asks for what the fitting inputs leave after the fee, the other outputs and the remainder of s + k d modulo 100, s being the first surplus and d the rest of the balance |
| `Attempts.ForeverIff` | Libraries/loafwallet-core/BRWallet.c:597-637 | The program goes on at one place for ever exactly if its first 101 attempts there exceed the limit and reduce |
| `Attempts.ForeverByRemainders` | Libraries/loafwallet-core/BRWallet.c:597-637 | In terms of the remainders: exactly if it does so with the outputs it starts from and with each amount that leaves room for one of the remainders |
| `Attempts.AttemptsEnd` | Libraries/loafwallet-core/BRWallet.c:565-655 | With a balance of at least the value of the unspent outputs, the attempts end, removed outputs included, exactly if they end within 101 for each of the outputs |
| `Attempts.StuckTries` | Libraries/loafwallet-core/BRWallet.c:597-637 | The states of SmallerTx.StuckForever are cases without end |
| `PeerManager.PeerManager.FindJoin` | Libraries/loafwallet-core/BRPeerManager.c:1411-1414 | The walk back from both tips ends at their highest common ancestor |
| `PeerManager.StepDown` | Libraries/loafwallet-core/BRPeerManager.c:1411-1414 | While the tips differ every common ancestor is below the higher one, and below both once they are level |
| `PeerManager.PeerManager.ConfirmBranch` | Libraries/loafwallet-core/BRPeerManager.c:1420-1437 | Going down the new branch every listed transaction in it gets the height and time of its block |
| `PeerManager.PeerManager.Reorganise` | Libraries/loafwallet-core/BRPeerManager.c:1407-1439 | The new tip becomes the last block; listed transactions carry the height of their block in the new branch, or are unconfirmed if they were above the join, or are unchanged; if no listed transaction is locked to a block height, a fresh ledger stays right but for outputs only pending transactions spend, and is fresh exactly if it is right about those, as it is if nothing listed can be pending |
| `PeerManager.PeerManager.IsOnMainChain` | Libraries/loafwallet-core/BRPeerManager.c:1375-1378 | The walk from the last block tells whether the stored block is one of its ancestors |
| `PeerManager.PeerManager.RelayedExisting` | Libraries/loafwallet-core/BRPeerManager.c:1370-1390 | A copy of a stored block changes the chain nowhere and confirms its transactions exactly if it is on the main chain |
| `PeerManager.PeerManager.RelayedBlock` | Libraries/loafwallet-core/BRPeerManager.c:1270-1446 | Which blocks are dropped, extend the chain, are copies, stay on a fork or reorganise it, and what each does to the chain and the wallet; the height of the last block never shrinks; if no listed transaction is locked to a block height, a fresh ledger stays right but for outputs only pending transactions spend, and is fresh exactly if it is right about those, as it is if nothing listed can be pending |
| `BlockChain.ConfirmationIs` | Libraries/loafwallet-core/BRPeerManager.c:1420-1437 | A transaction in just one block of the new branch is confirmed at that block |
| `BlockChain.BlockTimeHalfway` | Libraries/loafwallet-core/BRPeerManager.c:1435 | The time of a confirmation is halfway between the block and the one before, but for the bits that halving drops |
| `BlockChain.ConfirmationStep` | Libraries/loafwallet-core/BRPeerManager.c:1420-1437 | Going down by one block, that block prevails over those above |
| `BlockChain.SettledStep` | Libraries/loafwallet-core/BRWallet.c:932-971 | Updating the transactions of one block of the branch settles them |
| `Base58.CharDigitInverse` | Libraries/loafwallet-core/BRBase58.c:90-122 | The switch of the decoder and the alphabet of the encoder are inverse |
| `Base58.AlphabetIs` | Libraries/loafwallet-core/BRBase58.c:90-117 | The decoder knows exactly the digits and letters but for 0, O, I and l |
| `Base58.AlphabetOrder` | Libraries/loafwallet-core/BRBase58.c:90-117 | And numbers them in the order of their codes |
| `Base58.EncodeBuffer` | Libraries/loafwallet-core/BRBase58.c:45 | The buffer of n * 138 / 100 + 1 digits is large enough for n bytes, for every n |
| `Base58.DecodeBuffer` | Libraries/loafwallet-core/BRBase58.c:83 | The buffer of m * 733 / 1000 + 1 bytes is large enough for up to m digits, for every m |
| `Base58.MulAdd` | Libraries/loafwallet-core/BRBase58.c:49-56 | One digit more, in place from the right; the carry is used up |
| `Base58.Encode` | Libraries/loafwallet-core/BRBase58.c:38-73 | The string is a one for every leading zero byte and the base 58 digits of the number; lengths and the case of too little room |
| `Base58.Decode` | Libraries/loafwallet-core/BRBase58.c:76-143 | The bytes are a zero for every leading one and the base 256 digits of the number, up to the first invalid character; lengths and the case of too little room |
| `Base58.DecodeEncode` | Libraries/loafwallet-core/BRBase58.c:38-143 | Decoding the encoding of any byte string gives it back, leading zeros included |
| `Base58.EncodeDecode` | Libraries/loafwallet-core/BRBase58.c:38-143 | Encoding the decoding of any valid string gives it back, leading ones included |
| `Base58.CheckEncode` | Libraries/loafwallet-core/BRBase58.c:146-163 | The encoding of the data followed by four bytes of its hash |
| `Base58.CheckDecode` | Libraries/loafwallet-core/BRBase58.c:166-186 | The data without its checksum, or nothing if the checksum does not match |
| `Base58.CheckRoundTrip` | Libraries/loafwallet-core/BRBase58.c:146-186 | Whatever was encoded with a checksum is accepted and gives the data back |
| `Base58.AcceptedIsEncoded` | Libraries/loafwallet-core/BRBase58.c:146-186 | A valid string that is accepted is the encoding of what it gives |
| `Base58.DecodedLength` | Libraries/loafwallet-core/BRBase58.c:168 | A string never decodes to more bytes than it has characters, which is the buffer CheckDecode reserves |
| `Base58.MulAddShort` | Sources/Convenience/Base58.swift:30-44 | Visiting only the digits in use and those the carry reaches gives the same number, and the asserted zero carry |
| `Base58.FromBytes` | Sources/Convenience/Base58.swift:15-65 | The Swift encoder gives the same string as the C encoder |
| `SBoxes.SboxInverse` | Libraries/loafwallet-core/BRBIP38Key.c:50-86 | The two tables are mutually inverse on all 256 bytes; AesStandard.SboxIs says which tables they are |
| `AesStandard.SboxIs` | Libraries/loafwallet-core/BRBIP38Key.c:50-67 | The table is the one of section 5.1.1 of FIPS 197: its entry is the affine image of y exactly if y is the inverse of x in the field, or both are zero |
| `AesStandard.XtReduces` | Libraries/loafwallet-core/BRBIP38Key.c:88 | Doubling reduces by the polynomial 0x11b of section 4.2 of FIPS 197 |
| `AesStandard.MulIs` | Libraries/loafwallet-core/BRBIP38Key.c:88-110 | The factors two, three and nine of the matrices are products in the field |
| `AesStandard.InvMulIs` | Libraries/loafwallet-core/BRBIP38Key.c:148-150 | So are the factors eleven, thirteen and fourteen |
| `AesStandard.TimesAdd` | Libraries/loafwallet-core/BRBIP38Key.c:88 | The product is linear |
| `AesStandard.NoZeroDivisors` | Libraries/loafwallet-core/BRBIP38Key.c:88 | A product is zero only if a factor is, so that inverses are unique |
| `AesStandard.StateIs` | Libraries/loafwallet-core/BRBIP38Key.c:96-98 | Byte r + 4 c of a block is in row r and column c of the state |
| `AesStandard.RoundPartsAre` | Libraries/loafwallet-core/BRBIP38Key.c:101-106 | By row and column: substitution, row r taken from r columns further, and the addition of the round key |
| `AesStandard.MixedIs` | Libraries/loafwallet-core/BRBIP38Key.c:108-111 | By row and column: mixing multiplies by 2, 3, 1, 1 down the column |
| `AesStandard.UnmixedIs` | Libraries/loafwallet-core/BRBIP38Key.c:147-151 | By row and column: unmixing multiplies by 14, 11, 13, 9 |
| `Aes.XtStored` | Libraries/loafwallet-core/BRBIP38Key.c:88 | The macro on int operands, nested and cut to a byte, is multiplication by x in the field of FIPS 197 |
| `Aes.HalveXt` | Libraries/loafwallet-core/BRBIP38Key.c:163 | The step back of the round constant undoes the step forward for every byte |
| `Aes.MixShortcut` | Libraries/loafwallet-core/BRBIP38Key.c:109-110 | The shortcut for mixing a column is the matrix of section 5.1.3 of FIPS 197 |
| `Aes.UnmixShortcut` | Libraries/loafwallet-core/BRBIP38Key.c:148-150 | The shortcut for unmixing a column is the matrix of section 5.3.3 of FIPS 197 |
| `Aes.MixInverse` | Libraries/loafwallet-core/BRBIP38Key.c:108-151 | Unmixing undoes mixing for every column |
| `Aes.UnexpandExpand` | Libraries/loafwallet-core/BRBIP38Key.c:113-165 | The backward key schedule undoes the forward one |
| `Aes.ScheduleIs` | Libraries/loafwallet-core/BRBIP38Key.c:113-118 | The window after n expansions holds words 8 n to 8 n + 7 of the key schedule of section 5.2 of FIPS 197 |
| `Aes.EncryptedIsCipher` | Libraries/loafwallet-core/BRBIP38Key.c:90-126 | For every key and block the encryption is the cipher of section 5.1 of FIPS 197 |
| `AesExample.Example` | Libraries/loafwallet-core/BRBIP38Key.c:90-126 | The example of appendix C.3 of FIPS 197: the block 00112233...ff under the key 000102...1f becomes 8ea2b7ca516745bfeafc49904b496089, through all round keys and rounds |
| `Aes.Retrace` | Libraries/loafwallet-core/BRBIP38Key.c:128-173 | After i rounds decryption is where encryption was i rounds before its end |
| `Aes.DecryptEncrypt` | Libraries/loafwallet-core/BRBIP38Key.c:90-173 | For every key and block decryption undoes encryption |
| `AesInPlace.MixAll` | Libraries/loafwallet-core/BRBIP38Key.c:108-111 | The loop mixes each of the four columns in place |
| `AesInPlace.UnmixAll` | Libraries/loafwallet-core/BRBIP38Key.c:147-151 | The loop unmixes each of the four columns in place |
| `AesInPlace.RotateRows` | Libraries/loafwallet-core/BRBIP38Key.c:105-106 | The chained assignments shift row r by r columns |
| `AesInPlace.UnrotateRows` | Libraries/loafwallet-core/BRBIP38Key.c:154-155 | The chained assignments shift row r back by r columns |
| `AesInPlace.ExpandKey` | Libraries/loafwallet-core/BRBIP38Key.c:113-118 | The window is expanded in place |
| `AesInPlace.UnexpandKey` | Libraries/loafwallet-core/BRBIP38Key.c:159-165 | The window before is restored in place, with the round constant halved |
| `AesInPlace.Encrypt` | Libraries/loafwallet-core/BRBIP38Key.c:90-126 | The sixteen bytes become the encrypted block |
| `AesInPlace.Decrypt` | Libraries/loafwallet-core/BRBIP38Key.c:128-173 | The sixteen bytes become the decrypted block |
| `AesInPlace.BytesRoundTrip` | Libraries/loafwallet-core/BRBIP38Key.c:90-173 | Decrypting the encryption of sixteen bytes gives them back |
| `Bip38.Primitives.Encrypt` | Libraries/loafwallet-core/BRBIP38Key.c:345-392 | The string is the checked encoding of prefix, flag, address hash and the two encrypted halves |
| `Bip38.Primitives.Decrypt` | Libraries/loafwallet-core/BRBIP38Key.c:234-312 | Which strings are refused, and otherwise the key they hold for the passphrase and whether its address matches |
| `Bip38.Primitives.Halves` | Libraries/loafwallet-core/BRBIP38Key.c:358-391 | Where prefix, flag, address hash and both halves stand; each half of the secret is masked with its half of the first derived key and encrypted with the second |
| `Bip38.Primitives.KeyRestored` | Libraries/loafwallet-core/BRBIP38Key.c:253-392 | With the same passphrase the secret and the compressed flag are restored and the address matches |
| `Bip38.Primitives.StringRestored` | Libraries/loafwallet-core/BRBIP38Key.c:211-392 | The string an encrypted key is written as is a valid one and gives the key back |
| `Scripts.Elements` | Libraries/loafwallet-core/BRAddress.c:113-152 | The offsets of the elements, or none if the script does not end with one; a length that is cut off makes no difference |
| `Scripts.FromScriptPubKey` | Libraries/loafwallet-core/BRAddress.c:238-277 | A script is recognised exactly if it is, byte for byte, one of the four forms that pay to an address |
| `Scripts.RecognisedElements` | Libraries/loafwallet-core/BRAddress.c:252-274 | The elements of each of those forms |
| `Scripts.PushDataRoundTrip` | Libraries/loafwallet-core/BRAddress.c:155-229 | Pushed data is one element, and gives the data back, up to 2^32 bytes |
| `TxCodec.VarIntAt` | Libraries/loafwallet-core/BRAddress.c:38-103 | A variable-length integer that was written is read back, with its length |
| `TxCodec.InputAt` | Libraries/loafwallet-core/BRTransaction.c:112-132 | An input that was written is read back in all serialized fields, signed or unsigned |
| `TxCodec.OutputAt` | Libraries/loafwallet-core/BRTransaction.c:168-183 | An output that was written is read back, its address determined by its script |
| `TxCodec.RoundTrip` | Libraries/loafwallet-core/BRTransaction.c:255-403 | Parsing the serialized form of a transaction with at least one input gives it back in all serialized fields, whatever follows |
| `TxCodec.StrictPrefixFails` | Libraries/loafwallet-core/BRTransaction.c:340-403 | No strict prefix of a serialized transaction can be parsed |
| `TxCodec.PrefixFails` | Libraries/loafwallet-core/BRTransaction.c:340-403 | Whatever the bytes, a transaction cannot be parsed from fewer bytes than a parse takes |
| `TxCodec.SignedSize` | Libraries/loafwallet-core/BRTransaction.c:466-488 | The serialized form of a fully signed transaction is as long as its size says |
| `TxCodec.VarIntLayout` | Libraries/loafwallet-core/BRAddress.c:69-103 | A variable-length integer is one byte, or the mark 253, 254 or 255 with two, four or eight bytes, least significant first: the shortest that fit |
| `TxCodec.InputLayout` | Libraries/loafwallet-core/BRTransaction.c:112-132 | By position: hash at 0, index at 32, length at 36, script, amount of an unsigned input, sequence in the last four bytes |
| `TxCodec.OutputLayout` | Libraries/loafwallet-core/BRTransaction.c:168-183 | By position: amount at 0, length at 8, script |
| `TxCodec.TxLayout` | Libraries/loafwallet-core/BRTransaction.c:255-322 | By position: version at 0, count and inputs at 4, count and outputs behind them, lock time in the last four bytes |
| `TxCodec.InputsInOrder` | Libraries/loafwallet-core/BRTransaction.c:269-285 | Every input stands behind those before it |
| `TxCodec.OutputsInOrder` | Libraries/loafwallet-core/BRTransaction.c:168-183 | So does every output |
| `TxBuffer.VarIntSet` | Libraries/loafwallet-core/BRAddress.c:69-103 | The integer is written if it fits, and the number of bytes counted only then |
| `TxBuffer.InputData` | Libraries/loafwallet-core/BRTransaction.c:112-132 | An input is written if it fits, and its length reported only then |
| `TxBuffer.InputsData` | Libraries/loafwallet-core/BRTransaction.c:269-285 | All inputs one after the other, unsigned ones with their script and amount; those that do not fit are not counted |
| `TxBuffer.OutputsData` | Libraries/loafwallet-core/BRTransaction.c:168-183 | All outputs one after the other, if they fit |
| `TxBuffer.Serialize` | Libraries/loafwallet-core/BRTransaction.c:255-322 | With enough room the serialized form is written and nothing else changed; without a buffer the length is the same; the length reported is the needed one exactly if there is room |
| `TxBuffer.WrittenLengthIs` | Libraries/loafwallet-core/BRTransaction.c:255-322 | The reported length is the length of the serialized form exactly without a buffer or with room for it |
| `TxBuffer.ZeroOrAll` | Libraries/loafwallet-core/BRTransaction.c:255-322 | The reported length is zero or that of the serialized form exactly if there is room for that form, or none for the lock time behind the parts that fit |
| `TxBuffer.ShortBuffer` | Libraries/loafwallet-core/BRTransaction.c:255-322 | With too little room the reported length may be neither zero nor the needed one: an example |
| `TxBuffer.ReadVarInt` | Libraries/loafwallet-core/BRAddress.c:38-66 | Value and length, zero for bytes that are missing |
| `TxBuffer.ParseInput` | Libraries/loafwallet-core/BRTransaction.c:357-377 | One input, with an amount behind a script that pays to an address |
| `TxBuffer.Parse` | Libraries/loafwallet-core/BRTransaction.c:340-403 | The cursor loops read what the reading functions say, and nothing if bytes are missing or there is no input |
| `Bip39.IndexIs` | Libraries/loafwallet-core/BRBIP39Mnemonic.c:48-49 | The overlapping reads of four bytes give the successive runs of eleven bits |
| `Bip39.ByteAtIs` | Libraries/loafwallet-core/BRBIP39Mnemonic.c:91-93 | Two words put together and shifted give the successive runs of eight bits, with zeros behind the last word |
| `Bip39.IndicesValue` | Libraries/loafwallet-core/BRBIP39Mnemonic.c:44-54 | The words are the data followed by one bit of checksum for every four bytes |
| `Bip39.WordBytesValue` | Libraries/loafwallet-core/BRBIP39Mnemonic.c:88-95 | The bytes are the words followed by zeros |
| `Bip39.BytesOfIndices` | Libraries/loafwallet-core/BRBIP39Mnemonic.c:44-100 | The words of any data give back the data and its checksum |
| `Bip39.IndicesOfBytes` | Libraries/loafwallet-core/BRBIP39Mnemonic.c:44-100 | Words with the right checksum are the words of the data they give |
| `Bip39.ScanPhrase` | Libraries/loafwallet-core/BRBIP39Mnemonic.c:73-85 | Over every list of distinct words without spaces, the words of a phrase are found again |
| `Bip39.PhraseOfScan` | Libraries/loafwallet-core/BRBIP39Mnemonic.c:73-87 | A phrase that is read to its end and does not end with a space is the phrase of the words found |
| `Bip39.ScanWords` | Libraries/loafwallet-core/BRBIP39Mnemonic.c:73-85 | The loop finds the words of a phrase up to the first unknown one, at most twenty-four |
| `Bip39.Encode` | Libraries/loafwallet-core/BRBIP39Mnemonic.c:32-60 | The phrase of the data, lengths, and the case of too little room |
| `Bip39.Decode` | Libraries/loafwallet-core/BRBIP39Mnemonic.c:63-111 | The data of an accepted phrase, or nothing; lengths, and the case of too little room |
| `Bip39.DecodeEncode` | Libraries/loafwallet-core/BRBIP39Mnemonic.c:32-111 | For 4, 8, ..., 32 bytes and every list of 2048 distinct words without spaces, decoding the phrase gives the data back |
| `Bip39.EncodeDecode` | Libraries/loafwallet-core/BRBIP39Mnemonic.c:32-111 | Every accepted phrase that does not end with a space is the phrase of the data it gives |

## Left out

- MerkleBlock.ComputeCeilLog2: counts of 2^31 and more, for which the 32-bit loop of the program does not end.
- HashSet.HashSet.Add: additions past the limit of the last table size, for which the program has no larger table.
- HashSet.HashSet.Minus: a set subtracted from itself, where items can be moved behind the scan.
- Iteration, BRSetAll, BRSetApply, BRSetClear and BRSetIntersects.
- ChaCha20, the SHA and RIPEMD hashes, HMAC, scrypt and secp256k1, which are opaque.
- Wrap-around of 64-bit amounts in the wallet and in fees: amounts are unbounded; Ledger.TotalsBounded bounds the totals.
- Wallet.Wallet.CreateTxForOutputs: the recursive call with which the program tries again; the outcome TooLarge holds its outputs, and Attempts.AttemptsEnd says when the calls end. The check that there are outputs at all, which the program leaves to its assertions.
- Wallet.Wallet.RegisterTransaction: the callbacks, and the locks around every wallet operation.
- Wallet.Wallet.RemoveTransaction: the notification of the user; one reading of the clock serves the whole recursion.
- Wallet.Wallet.UpdateTransactions: updates of a listed transaction that does not touch the wallet, here and for UpdateOne; then the list need not stay sorted, or may hold a forgotten transaction.
- Freshness.StaysFresh: the order of the unspent outputs, the balance history and the totals sent and received, which may be those of the order before; block heights above the mark for unconfirmed transactions.
- Wallet.Wallet.SetTxUnconfirmedAfter: for heights above the mark for unconfirmed transactions the list need not stay sorted.
- Wallet.Wallet.UnusedAddrs: derivation at indices of 2^32 and more; whether the chain moved in memory is a parameter.
- Signing of transactions, amounts for display, and the look-ups that only return a field.
- PeerManager.PeerManager.RelayedBlock: the bloom filter, headers without transactions, difficulty and checkpoints other than the last one, and the keeping and later relaying of orphans; blocks are taken to be verified and their ancestors to be stored.
- Everything else in BRPeerManager.c and BRPeer.c: connections, messages, peers and threads.
- Base58.FromBytes: only the encoder of the Swift file is modelled, not its decoder.
- Bip38.Primitives.Decrypt: keys made by EC multiplication and unknown prefixes, which end with the outcome OtherPrefix.
- TxBuffer.Parse: wrap-around of an offset when a length near 2^64 is read, and the memory reserved for the announced counts.
- TxBuffer.Serialize: what is left in a buffer that is too short; only the reported length is described.
- Signature hashes: the serialized form for a single input, hash types other than ALL, and the witness form.
- Bip39.Encode: more than 940 bytes, which the buffer is not made for; what is left in a buffer that is too short.
- Wiping of secrets from memory.
- Bloom filters, CRC, the payment protocol, floating-point amounts and all user interface code.
