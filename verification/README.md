# TxChain: a verified model of the ledger

TxChain is a small blockchain node with a ledger of five founding wallets, and beside it the older version
that keeps a coin ledger on three backend servers. This project models the logic of both in Dafny and
proves what their parts promise each other.

## The second version: one ledger, several implementations

The account map is changed by one gate. Around it stand an incremental validator (`Chain`), a batch
validator (`Replay`), a third path without checks, a pending set with three indices (`Mempool`), a block
assembler with its own shadow of the accounts (`Candidate`), the nonce search (`Miner`), the boot path
(`Node`), fork choice, and an event loop in which admissions interleave with snapshot, search, commit and
timed seals. Classes follow the program's methods and loops step by step; each is proved against a
specification function, and the theorems are about those functions, for all inputs and all runs:

- the batch validator fails at the first block the incremental one refuses, with the same reason, and
  otherwise passes exactly when the closing supply check holds (`Replay`);
- the total supply is genesis plus coinbases plus self-transferred amounts, modulo 2^64 (`Accounting`,
  `ChainModel`);
- two chains with one tip hash are one chain, or a hash collision can be exhibited (`TipHash`);
- the assembler selects exactly what the gate would accept, and its blocks connect (`CandidateModel`);
- in every run, from whatever boot brought up, every pending transfer stays valid, nothing is lost, repeated
  or reordered, and the queue is served first in, first out, at seven transfers a mined block and eight a
  seal (`NodeLoop`, `NodeRuns`); with a clock that does not go back every finished search and every fired
  timer commits, unless the tip is at the edge of the clock's bound (`NodeTime`); the critical sections of
  the program's loop are the steps of that transition system (`EventLoopModel`);
- a restart gives back the same chain, under an exact condition (`NodeModel`, `NodeTime`);
- the undo log recovers every earlier state (`ChainModel`), the search returns the least solution (`Miner`),
  the pending set is one list (`MempoolModel`), frames survive any splitting of the stream (`FrameModel`).

Balances, nonces, timestamps and indices are 64-bit and wrap; work is 128-bit and wraps. That nothing wraps
is proved where it holds and is an explicit bound where it is needed.

SHA-256 and Ed25519 verification are arbitrary functions. Nothing assumes that the hash is injective.
`Primitives` holds the two functions; `CryptoOf` derives from them what the ledger uses: ids, hashes over
canonical bytes, the address of a key and the check of a signature. Clock readings, the success of a file
append, the stop flag of the search and random numbers are inputs.

## The first version: three backends, one ledger

`Shards` keeps rows as text, ciphered with a Caesar shift, spread at random over three backends; the main
server queries all three, deciphers, adds up, and writes. The model works on the actual text: numbers are
rendered and read back, rows and replies are split into words and lines (`Text`). Every run of requests is
answered as one plain, unsharded list of transactions (`PlainLedger`) answers it, for every random choice.

## Where the code and its documentation part

The model follows the code. The differences found are stated as theorems:

- The gate's comment says that applying a transfer conserves supply (src/chain/gate.cpp:74). A self-transfer
  is written to the map twice, the second write wins, and the amount is minted:
  `Accounting.TransferConservesExactly`. Its nonce does not move either, so it can be included again until
  its sender's next send: `ChainModel.SelfTransferAgainExactly`.
- The two validators are said never to disagree (src/chain/chain.cpp:75-77, src/chain/validate.cpp:87-89).
  They agree on every block, but only the batch one has the closing supply check, so it also refuses chains
  that connected: `Replay.ReplayPassesExactly`. A node may therefore refuse its own chain after a restart,
  exactly under the condition of `NodeModel.RestartExactly`; `NodeModel.ARestartIsRefused` is such a run.
- A short read is described as a close in the middle of a frame (include/txchain/net/frame.hpp:45). A close
  between two frames is reported in the same way. The description holds exactly when the read that failed
  had met some byte: `FrameModel.ShortReadMidFrameExactly`.
- A mined block is said always to make the chain heavier by 2^D (include/txchain/pow/forkchoice.hpp:8). At
  every difficulty the longer chain is the heavier exactly as long as the work of the longest stays below
  2^128: `ForkChoice.HeavierIsLongerExactly`. Beyond that the sum wraps, and a longer chain can weigh less
  than one mined block. At difficulty 128 and above, where the work of a block saturates
  (src/crypto/hashutil.cpp:42-47), the order is inverted: `ForkChoice.SaturatedWorkInverts`.
- The first version reports the sender's balance less the amount also when the sender pays himself:
  `PlainLedger.ReportedBalanceExactly`. A negative amount passes its check of the balance, and only such an
  amount can overdraw anyone: `PlainLedger.SafeExactly`.

## Layout

`dafny verify dfyconfig.toml` verifies the project. One module a file, in the order in which they build on
each other: `Wrappers`, `Bytes`, `Canonical`, `Target`, `Gate`, `Accounting`, `Chain`, `Replay`, `TipHash`,
`ForkChoice`, `Mempool`, `Miner`, `Candidate`, `Node`, `NodeLoop`, `NodeRuns`, `NodeTime`, `EventLoop`;
`Frame`; and `Text`, `Caesar`, `PlainLedger`, `Shards` for the first version. Lemmas that carry no row below
are steps of the proofs.

## Model

| member | source | states |
|---|---|---|
| `Bytes.WrapIsMod` | src/chain/gate.cpp:74-80 | unsigned 64-bit arithmetic, as the ledger's additions and subtractions use it, is reduction modulo 2^64 for every integer, negative ones included |
| `Bytes.DecodeEncode` | src/serialize/canonical.cpp:13-27 | the big-endian digits of a number in range decode to that number |
| `Bytes.EncodeDecode` | src/serialize/canonical.cpp:13-27 | any byte string is the big-endian encoding of the number it decodes to |
| `Canonical.PutU64` | src/serialize/canonical.cpp:13-16 | the eight bytes at the offset become the big-endian digits, the rest of the buffer stays, the offset advances by eight |
| `Canonical.PutArr` | src/serialize/canonical.cpp:18-21 | the bytes are copied to the offset, the rest of the buffer stays |
| `Canonical.GetU64` | src/serialize/canonical.cpp:23-27 | the shift-and-or loop reads the big-endian value at the offset without overflow |
| `Canonical.GetArr` | src/serialize/canonical.cpp:29-32 | the loop reads exactly the slice at the offset |
| `Canonical.WriteTxn` | src/serialize/canonical.cpp:36-47 | the buffer filled field by field is the 153-byte layout |
| `Canonical.WriteHeader` | src/serialize/canonical.cpp:49-58 | the buffer filled field by field is the 88-byte layout |
| `Canonical.ReadTxn` | src/serialize/canonical.cpp:60-74 | the reading loops decide and decode as the format does |
| `Canonical.ReadHeader` | src/serialize/canonical.cpp:76-87 | the reading loops decide and decode as the format does |
| `Canonical.TxnRoundTrip` | src/serialize/canonical.cpp:36-74 | decoding an encoded transaction gives it back exactly when its version is 1, else nothing |
| `Canonical.TxnBytesRoundTrip` | src/serialize/canonical.cpp:60-74 | bytes are accepted iff they are 153 long and start with 1, and then re-encoding gives the same bytes |
| `Canonical.HeaderRoundTrip` | src/serialize/canonical.cpp:49-87 | decoding an encoded header gives it back |
| `Canonical.HeaderBytesRoundTrip` | src/serialize/canonical.cpp:76-87 | exactly the 88-byte strings are headers, and re-encoding gives the same bytes |
| `Canonical.SignedPayloadCoversAllButSig` | src/serialize/canonical.cpp:89-94 | transactions with one signed payload differ at most in the signature |
| `Canonical.TxnLayout` | src/serialize/canonical.cpp:36-47 | every field of a transaction stands at its offset in the 153 bytes |
| `Canonical.HeaderLayout` | src/serialize/canonical.cpp:49-58 | every field of a header stands at its offset in the 88 bytes |
| `Canonical.WriteSignedPayload` | src/serialize/canonical.cpp:89-94 | the copying loop gives the first 89 bytes of the full encoding |
| `Canonical.CheckSignature` | src/chain/gate.cpp:62-66 | the signature is checked over exactly those 89 bytes |
| `Canonical.TxId` | src/serialize/canonical.cpp:96-99 | the id is the digest of the full encoding |
| `Canonical.BlockHash` | src/serialize/canonical.cpp:110-113 | the block hash is the digest of the header's encoding |
| `Canonical.AddressMatches` | src/crypto/address.cpp:9-19 | an address matches a key iff its twenty bytes are the first twenty of the key's digest |
| `Canonical.NoTampering` | src/serialize/canonical.cpp:89-94 | under a signature scheme that accepts a signature of a key for at most one message, two transactions that verify under one key with one signature are the same transaction |
| `Canonical.SameIdSameTxn` | src/serialize/canonical.cpp:96-99 | two transactions with one id are equal, or their encodings are a collision of the hash |
| `Canonical.SameHashSameHeader` | src/serialize/canonical.cpp:110-113 | two headers with one block hash are equal, or their encodings are a collision |
| `Canonical.SameHashSameTxns` | src/serialize/canonical.cpp:101-108 | two transaction lists with one commitment are equal, or the hashed bytes are a collision |
| `Canonical.SerializeTxnInjective` | src/serialize/canonical.cpp:36-47 | two transactions with one encoding are equal, whatever their version |
| `Canonical.SerializeHeaderInjective` | src/serialize/canonical.cpp:49-58 | two headers with one encoding are equal |
| `Canonical.ConcatTxnsInjective` | src/serialize/canonical.cpp:101-108 | the byte string hashed for a transaction list determines the list |
| `Canonical.StreamTxnsHash` | src/serialize/canonical.cpp:101-108 | the streaming hash over one encoding after another is the hash of the concatenation |
| `Target.LeadingZeroBits` | src/crypto/hashutil.cpp:19-34 | the nested loops return the number of leading zero bits |
| `Target.LeadingZerosMeaning` | src/crypto/hashutil.cpp:19-34 | the count is the width minus the bit length of the big-endian integer |
| `Target.MeetsDifficultyIsTarget` | src/crypto/hashutil.cpp:36-40 | a digest meets D iff D is at most 256 and the digest as an integer is below 2^(256-D) |
| `Target.MeetsDifficultyIsZeroPrefix` | include/txchain/crypto/hashutil.hpp:57-60 | a digest meets D iff the first D/8 bytes and the next D%8 bits are zero |
| `Target.WorkIsTarget` | src/crypto/hashutil.cpp:36-47 | below 128 bits a digest meets D iff its value times the work of a block stays below 2^256 |
| `Target.WorkDoubles` | src/crypto/hashutil.cpp:42-47 | the work is 1 at D = 0, doubles with every bit up to 127, and is all ones from 128 on |
| `Target.ToHex` | src/crypto/hashutil.cpp:7-17 | the loop renders two lower-case digits per byte |
| `Target.FromHex` | include/txchain/crypto/hashutil.hpp:33-49 | decoding succeeds iff the text is 2n hex digits of either case; the bytes then render as that text in lower case |
| `Target.HexRoundTrip` | include/txchain/crypto/hashutil.hpp:22-49 | decoding a rendered byte string gives it back |
| `Target.HexEncodeInjective` | src/crypto/hashutil.cpp:7-17 | two byte strings with one rendering are equal |
| `Gate.VerdictOkExactly` | src/chain/gate.cpp:43-72 | a transaction passes iff it is a well-formed coinbase at position 0 or an authentic transfer with the expected nonce and enough funds |
| `Gate.VerdictReasonsExactly` | src/chain/gate.cpp:43-72 | each reason for a refusal as an if-and-only-if on the transaction and its sender's account |
| `Gate.TamperedIsRefused` | src/chain/gate.cpp:59-66 | a transfer that was altered after it was signed, its signature kept, is refused as BAD_SIG |
| `Gate.RefusalIsFirst` | src/chain/gate.cpp:106-107 | a list is refused with a reason iff that is the verdict on its first transaction that is not accepted, on the ledger its predecessors leave |
| `Gate.BlockRefusals` | src/chain/gate.cpp:110-113 | a block is refused as its transactions are; if they pass, it is refused, as BAD_SUPPLY, iff a coinbase is due and missing |
| `Gate.CoinbaseBytes` | src/chain/gate.cpp:34-41 | the 153 bytes of a coinbase |
| `Gate.AccountMap.ApplyTxn` | src/chain/gate.cpp:43-84 | the in-place gate gives the verdict of the specification, its ledger on success and an unchanged ledger on refusal; the recipient is written last |
| `Gate.AccountMap.ApplyCoinbase` | src/chain/gate.cpp:93-103 | the driver's own copy of the coinbase rule, with its counter, decides and credits as the gate does |
| `Gate.AccountMap.ApplyBlockTxns` | src/chain/gate.cpp:86-114 | the driver gives the verdict and ledger of the specification; on a refusal it names the offending position, and the ledger is that of the transactions before it |
| `Gate.GateStops` | src/chain/gate.cpp:106-107 | a refusal inside a list is final: it is the verdict of every longer list |
| `Gate.GateTxnsAcceptsExactly` | src/chain/gate.cpp:86-108 | a list is accepted iff every transaction is acceptable on the ledger its predecessors leave |
| `Gate.GateBlockAcceptsExactly` | src/chain/gate.cpp:86-114 | a block is accepted iff in addition, under a reward, it starts with a well-formed coinbase |
| `Gate.TransferVerdictIsLocal` | src/chain/gate.cpp:59-83 | the verdict on a transfer depends on neither the block index nor the position |
| `Gate.AcceptedIsApplied` | src/chain/gate.cpp:74-83 | accepting a list applies its transactions one by one, each funded where it stands |
| `Accounting.AccountLaw` | src/chain/gate.cpp:74-83 | after any funded list each account is its start plus all it received minus all it sent, modulo 2^64, with the nonce advanced by its count of sends |
| `Accounting.SupplyLaw` | src/chain/gate.cpp:55-82 | after any funded list the sum of all balances is, modulo 2^64, the old sum plus 50 per coinbase plus every self-transferred amount, and never more than that |
| `Accounting.TransferConservesExactly` | src/chain/gate.cpp:74-82 | a transfer leaves the total supply as it was iff sender and recipient differ or the amount is zero |
| `Accounting.CreditIsExact` | src/chain/gate.cpp:80-82 | while supply plus mint stays below 2^64 a credited balance does not wrap |
| `Accounting.BystanderKeeps` | src/chain/gate.cpp:74-83 | an address that sends nothing in a list keeps its nonce and at least its balance, while the supply stays below 2^64 |
| `Accounting.MintedIs` | src/chain/gate.cpp:55-82 | what a list mints is 50 per coinbase plus its self-transferred amounts |
| `ChainModel.GenesisAllocIsTable` | include/txchain/chain/genesis.hpp:34-45 | the five addresses of the table are distinct and not null |
| `ChainModel.GenesisSupply` | include/txchain/chain/genesis.hpp:47-53 | any five distinct non-null addresses with 1000 each hold 5000, with every nonce zero |
| `ChainModel.GenesisBytes` | src/chain/genesis.cpp:12-20 | the 88 bytes of the genesis header |
| `ChainModel.StartTimeIsLeast` | src/node/node.cpp:203 | the timestamp of a new block is the least one that is not before the clock and after the tip, unless the tip carries the last timestamp there is |
| `ChainModel.LinkReasonsExactly` | src/chain/chain.cpp:54-73 | each reason of V1 to V6 as an if-and-only-if on the block, with the target as an integer bound |
| `ChainModel.ConnectReasons` | src/chain/chain.cpp:54-88 | connecting is refused for the first header check that fails, else as the transactions are |
| `ChainModel.ValidChainShape` | src/chain/chain.cpp:54-73 | on a valid chain every mined block carries its position and its predecessor's hash, meets the target, commits to at most eight transactions, and is later than every block before it |
| `ChainModel.Chain.CheckAgainstTip` | src/chain/chain.cpp:51-73 | the checks V1 to V6 in their order, with their reasons |
| `ChainModel.Chain.SnapshotTouched` | src/chain/chain.cpp:80-86 | the undo record lists sender and recipient of every transaction with the accounts they had before the block |
| `ChainModel.Chain.ConnectBlock` | src/chain/chain.cpp:51-97 | the verdict, and the whole new state of all four fields: unchanged on any refusal, extended on success |
| `ChainModel.ConnectAcceptsExactly` | src/chain/chain.cpp:51-97 | a block is connected iff it extends the blocks and their ledger and is not ahead of the clock's bound; a refusal changes nothing |
| `ChainModel.EveryRunIsCoherent` | src/chain/chain.cpp:24-28 | after any sequence of attempts, refused ones included, ledger, work and undo log are functions of the block list |
| `ChainModel.ConnectKeepsCoherent` | src/chain/chain.cpp:90-97 | one attempt, accepted or refused, keeps that |
| `ChainModel.LedgerIsHistory` | src/chain/chain.cpp:79-92 | the ledger of a valid chain is genesis with every transaction applied in inclusion order |
| `ChainModel.BalanceSheet` | src/chain/gate.cpp:74-83 | every account of a valid chain is its genesis account with all receipts, sends and send counts of the whole history |
| `ChainModel.ChainSupply` | src/chain/validate.cpp:97-102 | the sum of balances of a valid chain is, modulo 2^64, 5000 plus all mints, and never more |
| `ChainModel.OneCoinbasePerBlock` | src/chain/gate.cpp:110-113 | under a reward a valid chain holds exactly one coinbase per block after genesis |
| `ChainModel.SupplyWithoutSelfTransfers` | include/txchain/chain/params.hpp:19-27 | with reward 50 and no self-transfer the sum is exactly 5000 + 50 per block, while that is below 2^64 |
| `ChainModel.NonceCountsSends` | src/chain/gate.cpp:69-78 | the nonce of every transfer on a valid chain is the number of earlier non-self transfers of its sender |
| `ChainModel.NoTransferTwice` | src/chain/gate.cpp:69-78 | after a non-self transfer every later transfer of the sender carries a larger nonce, so it occurs nowhere again |
| `ChainModel.CoinbaseCarriesIndex` | src/chain/gate.cpp:97-99 | the coinbase of block i carries nonce i, so no coinbase occurs twice |
| `ChainModel.IncludedAgainExactly` | src/chain/gate.cpp:69-83 | a transfer included at history position i is accepted again at a later position iff the number of its sender's sends from i up to there, itself counted, is a multiple of 2^64 and the balance there covers the amount |
| `ChainModel.SelfTransferAgainExactly` | src/chain/gate.cpp:74-83 | in a history shorter than 2^64 an included self-transfer is accepted again at a later position iff its sender has sent nothing in between and the balance there covers the amount |
| `ChainModel.SelfTransferReplays` | src/chain/gate.cpp:74-83 | on the ledger its own inclusion leaves, a self-transfer is accepted again iff its credit did not wrap |
| `ChainModel.RestoreAt` | src/chain/chain.cpp:79-86 | restoring an undo record over any map gives exactly the named addresses their recorded accounts, even when addresses repeat |
| `ChainModel.UndoBlock` | src/chain/chain.cpp:79-95 | restoring the record of a block over its ledger gives back every account before the block |
| `ChainModel.UndoLogSuffices` | src/chain/chain.cpp:79-95 | unwinding the log from the tip recovers every account at every earlier height |
| `Replay.CheckLink` | src/chain/validate.cpp:76-85 | replay's own copy of V1 to V6 gives the reasons of the incremental one |
| `Replay.ReplayBlock` | src/chain/validate.cpp:72-95 | one turn of the loop succeeds iff connecting the block would, with the same reason and ledger |
| `Replay.ReplayFromGenesis` | src/chain/validate.cpp:53-105 | for every block list, clock, difficulty and reward the verdict is that of connecting block by block — first failing index and reason — followed by the closing supply check |
| `Replay.CheckSupply` | src/chain/validate.cpp:97-102 | the wrapped loop sum equals the wrapped closed form iff the real sums agree modulo 2^64 |
| `Replay.ReplayPassesExactly` | src/chain/validate.cpp:53-105 | a list that starts at the genesis block passes iff it is a valid chain within the clock's bound whose mints amount, modulo 2^64, to one reward per block |
| `Replay.ReplayFailsExactly` | src/chain/validate.cpp:71-102 | a list that starts at the genesis block fails at k for r iff the blocks before k are a valid chain within the clock's bound that refuses block k for r, or all of it is one, k is its height, r is BAD_SUPPLY and its mints do not match |
| `Replay.ReplayStartExactly` | src/chain/validate.cpp:55-66 | an empty list, and a first block out of place or with a wrong commitment, fail at index 0 with their reasons |
| `Replay.ReplayPassesExactlyUnderReward` | src/chain/validate.cpp:97-102 | under the reward of 50 that last condition is: the self-transferred amounts cancel modulo 2^64 |
| `Replay.ConnectAllExactly` | src/chain/chain.cpp:51-97 | connecting a whole list succeeds iff it is a valid chain within the clock's bound, and ends in the coherent chain over that list |
| `Replay.ReplayState` | src/chain/validate.cpp:107-114 | the unchecked third path computes its lenient ledger, refused transactions skipped |
| `Replay.LenientSkips` | src/chain/validate.cpp:107-114 | a transaction the gate refuses where it stands is skipped, any other applied |
| `Replay.ReplayStateIsCommittedLedger` | src/chain/validate.cpp:107-114 | on every valid chain that ledger is the committed one |
| `TipHash.VerifiedIsLinked` | src/chain/validate.cpp:60-95 | in a list that passes replay every block names its index, its predecessor's hash and its transactions' hash |
| `TipHash.OneTipOneHistory` | src/chain/validate.cpp:60-95 | two linked lists with one tip hash are identical, or two distinct byte strings hashed in them have one digest |
| `TipHash.TipHashDeterminesHistory` | src/chain/validate.cpp:60-95 | the same for any two lists that pass replay at any clocks |
| `ForkChoice.WorkIsAccumulated` | src/pow/forkchoice.cpp:9-13 | after every run the closed form equals the work the chain accumulated block by block; below 128 bits that is 2^D for every mined block, modulo 2^128 |
| `ForkChoice.EvaluateImport` | src/pow/forkchoice.cpp:19-29 | the candidate wins iff it passes replay and is strictly heavier; both works are reported, 2^D for every mined block, and the status |
| `ForkChoice.ActiveIsFirstHeaviest` | src/pow/forkchoice.cpp:15-29 | after any sequence of imports the active chain is the first, incumbent first, of maximal work among the incumbent and the valid candidates |
| `ForkChoice.HeavierIsLongerExactly` | src/pow/forkchoice.cpp:9-17 | all chains of up to n blocks are ordered by length — the longer is the heavier — iff (n-1) * 2^D stays below 2^128, or n is at most 2 where the work saturates |
| `ForkChoice.ImportIsByLength` | src/pow/forkchoice.cpp:15-29 | up to that length an import replaces the active chain iff the candidate passes replay and is strictly longer |
| `ForkChoice.SaturatedWorkInverts` | src/crypto/hashutil.cpp:42-47 | at D of 128 and above a chain weighs more than another iff it has mined blocks and the other has none or more of them; so among chains with mined blocks the shorter is the heavier |
| `MempoolModel.Mempool.constructor` | src/mempool/mempool.cpp:40-41 | a new pool stands for the empty queue |
| `MempoolModel.Mempool.Admit` | src/mempool/mempool.cpp:52-89 | the verdict is the normative one on the abstract queue; success appends, anything else changes nothing; the three maps stay one list |
| `MempoolModel.Mempool.AdmitBytes` | src/mempool/mempool.cpp:45-50 | bytes are unparseable iff the format refuses them, else judged as the transaction they encode |
| `MempoolModel.Mempool.EvictIncluded` | src/mempool/mempool.cpp:91-101 | each id drops the entry it finds, that entry's sequence number and the slot of the evicted transaction's sender if it holds the id; the maps then list the filtered queue unless an evicted transaction collides in id with another one pending |
| `MempoolModel.CollisionKeepsSlot` | src/mempool/mempool.cpp:91-101 | in a collision of ids between different senders, evicting one drops the other's entry but leaves the other's slot taken |
| `MempoolModel.Mempool.SortedBySeq` | src/mempool/mempool.cpp:103-111 | walking the ordered sequence map returns exactly the queue |
| `MempoolModel.ShadowVerdict` | src/mempool/mempool.cpp:61-67 | the gate run on a one-account shadow at made-up indices gives the verdict on that account |
| `MempoolModel.AdmissionIsTheGate` | src/mempool/mempool.cpp:61-81 | at any position past the coinbase and on any ledger with the same sender account, admission succeeds iff the gate accepts and slot and capacity are free, and every refusal maps to its token |
| `MempoolModel.AdmitTokensExactly` | src/mempool/mempool.cpp:52-88 | every answer of admission as an if-and-only-if on the transaction, its sender's account and the queue |
| `MempoolModel.EvictKeeps` | src/mempool/mempool.cpp:91-101 | an entry survives eviction iff it was pending and its id was not included |
| `MempoolModel.EvictGood` | src/mempool/mempool.cpp:91-101 | eviction keeps entries authentic, ids and senders distinct and sequence numbers increasing |
| `MempoolModel.EvictFront` | src/mempool/mempool.cpp:91-101 | evicting the front of the queue leaves its back in order |
| `Miner.Mine` | src/pow/miner.cpp:9-30 | the search ends at the first attempt that solves the block or meets a raised flag, returning the candidate with that timestamp and nonce, or nothing |
| `Miner.AttemptsAreLexicographic` | src/pow/miner.cpp:23-28 | until the timestamp overflows, attempts come in the lexicographic order of (timestamp, nonce) |
| `Miner.EveryPairIsAttempted` | src/pow/miner.cpp:23-28 | every pair from (candidate timestamp, 0) on has its attempt |
| `Miner.MinedIsLeast` | src/pow/miner.cpp:9-30 | an unstopped search returns the lexicographically least solving pair |
| `Miner.StopIsPrompt` | src/pow/miner.cpp:12-13 | a flag that is raised and stays up ends the search within 2^14 attempts |
| `CandidateModel.BuildCandidate` | src/pow/candidate.cpp:12-55 | the body is the coinbase and the greedy choice of the consensus gate itself; the header links to the tip and carries the least time that is not before the clock and after the tip |
| `CandidateModel.CandidateHeaderIs` | src/pow/candidate.cpp:48-53 | every field of that header |
| `CandidateModel.SelectionTakesExactly` | src/pow/candidate.cpp:34-46 | one more pending transaction joins the selection iff fewer than eight are chosen and the gate accepts it behind them; nothing else makes it skipped |
| `CandidateModel.SelectTxns` | src/pow/candidate.cpp:19-46 | selection against the lazy shadow, without addresses and signatures, takes a pending transaction iff there is room and the gate would accept it there — self-transfers, which the shadow treats differently, included |
| `CandidateModel.ShadowChecksAreTheGate` | src/pow/candidate.cpp:40-41 | on an authentic pending entry the two checks of the shadow are the verdict of the gate |
| `CandidateModel.CandidateTxnsAccepted` | src/pow/candidate.cpp:19-46 | what is selected is accepted by the gate, starts with the coinbase and fits in a block |
| `CandidateModel.AssembledBlockConnectsExactly` | src/pow/candidate.cpp:48-54 | an assembled block with any timestamp and nonce connects to the unchanged tip iff it meets the target and lies in the time window |
| `CandidateModel.CandidateTimeInWindow` | src/pow/candidate.cpp:50 | the starting timestamp lies in the window iff the tip is not already at the edge of the clock's bound |
| `NodeModel.Node.Reconnect` | src/node/node.cpp:184-193 | after replay passed, the reconnect loop never takes its failure branch and ends in the chain that connecting gives |
| `NodeModel.Node.Boot` | src/node/node.cpp:142-196 | the outcome, chain and file for a missing, unreadable, empty, foreign, failing and passing file |
| `NodeModel.Node.CommitBlock` | src/node/node.cpp:217-224 | the chain changes as connecting does; the block is appended to the file iff it connected and the write succeeded |
| `NodeModel.Node.SealNextBlock` | src/node/node.cpp:198-215 | the same for the block assembled from the tip, the clock and the given transactions |
| `NodeModel.SealedBlockIs` | src/node/node.cpp:201-207 | every field of a sealed block; its time is the least one that is not before the clock and after the tip |
| `NodeModel.ServedIsStored` | src/node/node.cpp:198-224 | after any run of commits and seals the file holds exactly the chain, the chain is coherent and no block outruns a later clock |
| `NodeModel.BootIsCoherent` | src/node/node.cpp:142-196 | whatever boots has ledger, work and undo log determined by its blocks |
| `NodeModel.BootStartExactly` | src/node/node.cpp:149-176 | what boot comes to on a missing, unreadable or empty file and on another genesis block; a refused node holds the genesis chain |
| `NodeModel.BootOutcomeExactly` | src/node/node.cpp:177-195 | on a list that starts at genesis boot comes up iff all of it is a valid chain within the clock's bound whose mints match, and is refused at k for r iff the list breaks there for r, or for its supply |
| `NodeModel.RebootExactly` | src/node/node.cpp:157-196 | booting on the blocks of any valid chain that is not ahead of the clock brings up that very chain in all fields iff its mints amount, modulo 2^64, to one reward per block; otherwise it is refused for supply at its tip |
| `NodeModel.RestartExactly` | src/node/node.cpp:142-224 | booting at a later clock on what any run of commits and seals stored brings up the very same chain iff that condition holds; otherwise the node refuses its own chain |
| `NodeModel.SelfTransferForfeitsRestart` | tests/unit/replay_test.cpp:113-135 | without reward and work, one sealed authentic self-transfer of a positive amount by a founder makes every later boot fail with the supply reason at block 1 |
| `NodeModel.ARestartIsRefused` | tests/unit/replay_test.cpp:113-135 | such a run exists with the program's own genesis table: two blocks are stored and replay refuses them |
| `NodeModel.RestartExactlyUnderReward` | src/node/node.cpp:177-183 | in proof-of-work mode the condition is that the self-transfers of the history cancel modulo 2^64 |
| `NodeLoop.MoneyBound` | src/chain/gate.cpp:74-113 | the balances of a run's chain never exceed genesis, one reward per block and the self-transfers |
| `NodeLoop.FrontAccepted` | apps/txnode/main.cpp:177-183 | if each pending entry fits the tip by itself, the gate accepts any number of them from the front together, behind any accepted coinbase |
| `NodeLoop.LaterStillFits` | apps/txnode/main.cpp:159-163 | after a block made of the front of the queue every later entry still has the right nonce and enough funds |
| `NodeLoop.SnapshotTakesFront` | src/pow/candidate.cpp:34-46 | so assembling a block skips nothing: it takes the front of the queue, up to seven |
| `NodeRuns.AdmitKeeps` | apps/txnode/main.cpp:118-123 | an admission between snapshot and commit keeps the invariant, and the candidate in flight stays valid |
| `NodeRuns.CommitOutcome` | apps/txnode/main.cpp:157-169 | a mined block is committed iff its timestamp is in the window, and then exactly its transfers leave the front of the queue |
| `NodeRuns.CommitSucceedsExactly` | apps/txnode/main.cpp:147-169 | with a clock that has not gone back since the snapshot, a search that ended within the first timestamp leads to a commit iff the tip is below the clock plus 7200 seconds |
| `NodeRuns.SealOutcome` | apps/txnode/main.cpp:173-186 | a seal succeeds iff the tip is not at the edge of the clock's bound, and then takes up to eight from the front |
| `NodeRuns.EveryRunKeeps` | apps/txnode/main.cpp:59-195 | from whatever boot brought up, under any interleaving of admissions, snapshots, pre-emptions, commits and seals: the chain is coherent, every pending entry still fits the tip, the candidate in flight is acceptable, and chain plus queue are the transfers of the booted chain followed by the admissions in order |
| `NodeRuns.RunKeeps` | apps/txnode/main.cpp:139-195 | the same from any state that satisfies the invariant |
| `NodeRuns.RunOnSchedule` | apps/txnode/main.cpp:143-195 | every further block takes its full share from the front of what was pending |
| `NodeRuns.FirstInFirstOut` | apps/txnode/main.cpp:143-195 | the entry at queue position i is on the chain, at its place in the order of admission, once enough blocks are committed: seven transfers a mined block, eight a seal, not counting a block already in flight |
| `NodeTime.TimelyCommits` | apps/txnode/main.cpp:143-195 | every timely step — a search that ended within the first timestamp, or a fired timer, with the tip below the clock plus 7200 — commits a block, if the clock does not go back |
| `NodeTime.RunCommits` | apps/txnode/main.cpp:143-195 | every run whose clock does not go back commits at least one block for each of its timely steps |
| `NodeTime.ServedInTime` | apps/txnode/main.cpp:143-195 | in such a run the entry at queue position i is on the chain, at its place, after i/7 + 1 timely searches or i/8 + 1 timely seals, and one more if a candidate was already in flight |
| `NodeTime.LoopRestartsExactly` | apps/txnode/main.cpp:59-70 | after any run, stopping the loop and booting at a later clock on the blocks it served continues with that very chain iff its mints amount to one reward per block, and the invariant of runs holds again |
| `EventLoopModel.EventLoop.Start` | apps/txnode/main.cpp:57-100 | the program boots, stops if that is refused, and else enters the loop in the state of a booted run; the file holds what the chain serves unless a first genesis block could not be written |
| `EventLoopModel.EventLoop.constructor` | apps/txnode/main.cpp:96-100 | the loop on a booted node, with an empty pool, is the start of a run on that node's chain |
| `EventLoopModel.EventLoop.Admit` | apps/txnode/main.cpp:118-123 | the locked admission on the real maps is the admission step, with the verdict on the committed account |
| `EventLoopModel.EventLoop.Snapshot` | apps/txnode/main.cpp:147-154 | the locked snapshot is the snapshot step |
| `EventLoopModel.EventLoop.Commit` | apps/txnode/main.cpp:157-169 | commit-if-the-tip-has-not-moved with eviction is the commit step, and the file follows the chain |
| `EventLoopModel.EventLoop.MineRound` | apps/txnode/main.cpp:144-171 | one undisturbed round of the loop is a snapshot step followed by a give-up or commit step at the attempt the search ended at, and the file follows the chain |
| `EventLoopModel.EventLoop.SealTick` | apps/txnode/main.cpp:173-186 | draining, sealing and evicting is the seal step, and the file follows the chain |
| `FrameModel.ReadExact` | src/p2p/frame.cpp:20-39 | for every pattern of partial receives and interrupts: success takes exactly the next n bytes, a close takes all there were and is a short read, and an I/O error needs a failure of the socket |
| `FrameModel.WriteAll` | src/p2p/frame.cpp:41-54 | for every pattern of partial, empty and interrupted sends: success sends all the bytes once and in order, failure a strict prefix |
| `FrameModel.ReadFrame` | src/p2p/frame.cpp:58-85 | unless the socket fails, result and remaining stream are those of the format; an oversized frame is refused with its body unread |
| `FrameModel.WriteFrame` | src/p2p/frame.cpp:87-109 | an oversized payload is refused with nothing sent; success sends the encoding; a failing socket leaves a strict prefix of it |
| `FrameModel.ParseEncode` | include/txchain/net/frame.hpp:7-14 | a frame within the cap is read back and the stream stands behind it |
| `FrameModel.EncodeParse` | src/p2p/frame.cpp:58-85 | reading succeeds on nothing but the encoding of a frame within the cap |
| `FrameModel.ParseOutcomesExactly` | src/p2p/frame.cpp:58-85 | each outcome of reading a frame as an if-and-only-if on the bytes, with what it leaves of the stream |
| `FrameModel.StreamRoundTrip` | include/txchain/net/frame.hpp:3-5 | any list of frames within the cap is read back; the stream then ends with a short read |
| `FrameModel.DecodeThrough` | include/txchain/net/frame.hpp:3-5 | whole frames in front of any tail are read one by one, and the tail alone decides how reading goes on |
| `FrameModel.TruncatedStream` | include/txchain/net/frame.hpp:42-47 | cut anywhere, a stream yields exactly the frames that arrived whole and then a short read |
| `FrameModel.WholeIsMost` | include/txchain/net/frame.hpp:42-47 | those are the longest run of frames that fits in the bytes that arrived |
| `FrameModel.ShortReadMidFrameExactly` | include/txchain/net/frame.hpp:45 | a cut stream ends in a short read; the cut was in the middle of a frame iff the read that failed had met a byte of it, and at a boundary iff the frames read are all the bytes that arrived |
| `FrameModel.Receive` | src/p2p/frame.cpp:58-85 | reading frames until a read fails yields the decoding of the stream, and what the failed read met is exactly the bytes behind the frames |
| `FrameModel.DecodedIsEncoded` | src/p2p/frame.cpp:58-85 | every byte of any stream is accounted for: the encodings of the frames read, then a tail that fails to parse with the reported error |
| `FrameModel.RoundTrip` | include/txchain/net/frame.hpp:83-88 | frames written over any pattern of sends and read over any pattern of receives arrive as they were |
| `Caesar.EncStr` | serverM.cpp:65-69 | the loop enciphers character by character |
| `Caesar.DecStr` | serverM.cpp:70-74 | the loop deciphers character by character |
| `Caesar.EncDec` | serverM.cpp:51-74 | deciphering and enciphering undo each other on every string, and words stay words |
| `Caesar.EncCharIs` | serverM.cpp:53-58 | letters move three places in their case and digits three places, round the end; nothing else moves |
| `Caesar.EncInjective` | serverM.cpp:10-12 | names are equal iff their ciphertexts are |
| `Text.NumberRender` | serverM.cpp:241-244 | a rendered integer, negative or not, is read back up to the first character that is no digit |
| `Text.TokensSpaced` | serverA.cpp:55-59 | words set apart by blanks are extracted again |
| `Text.LinesHang` | serverM.cpp:142-149 | lines hung below a first one are read back by getline |
| `Shards.LineRoundTrip` | serverA.cpp:100-108 | the kept row of a transaction is one line, parses, and deciphers to the transaction |
| `Shards.Backend.HandleQuery` | serverA.cpp:61-81 | the loop returns the highest serial of all parsable rows and the rows that match either ciphertext name |
| `Shards.Backend.HandleAll` | serverA.cpp:83-98 | the loop returns the highest serial and every parsable row |
| `Shards.Backend.HandleNew` | serverA.cpp:100-115 | a malformed row changes nothing; a good one is appended in normal form |
| `Shards.Backend.Handle` | serverA.cpp:151-168 | the dispatch on the first word: a well-formed NEW is appended and confirmed, a malformed one refused, and every other request is answered — QUERY, ALL or an error — with the rows unchanged |
| `Shards.ParseQueryReply` | serverM.cpp:140-160 | the loop appends the deciphered rows and raises the running maximum by the first line |
| `Shards.ReadQueryReply` | serverM.cpp:140-160 | of a backend that keeps given transactions, the reply to a query carries exactly those that mention the plain names, and its highest serial |
| `Shards.ReadAllReply` | serverA.cpp:83-98 | the reply to ALL carries exactly the transactions kept |
| `Shards.MainServer.QueryAll` | serverM.cpp:162-182 | over the three backends: exactly the transactions of the whole ledger that mention the names, and the length of the ledger as highest serial |
| `Shards.MainServer.DoCheckWallet` | serverM.cpp:186-208 | the reply is that of the one plain ledger |
| `Shards.MainServer.DoTxcoins` | serverM.cpp:210-255 | reply and new ledger are those of the one plain ledger, whichever backend the random number picks; the new serial is n+1 |
| `Shards.MainServer.DoTxlist` | serverM.cpp:291-313 | the statement written is the plain ledger in order of serials |
| `Shards.MainServer.Serve` | serverM.cpp:352-361 | every run of requests is answered as the one plain ledger answers it, for all random choices |
| `Shards.SortBySerial` | serverM.cpp:289-301 | sorting by serial returns an ordered permutation |
| `PlainLedger.SortedIsLedger` | serverM.cpp:291-301 | an ordered permutation of a ledger with serials 1 to n is the ledger itself |
| `PlainLedger.MaxIsLength` | serverM.cpp:238-240 | wherever the transactions lie, the highest serial is their number |
| `PlainLedger.FlowPerm` | serverM.cpp:197-201 | balances do not depend on the order or place of the transactions |
| `PlainLedger.SerialsStay` | serverM.cpp:238-246 | after any requests the serials are still exactly 1 to n and earlier entries are unchanged |
| `PlainLedger.ToldExactly` | serverM.cpp:227-251 | each answer to a transfer as an if-and-only-if: which named party is in no transaction, a balance below the amount, or success |
| `PlainLedger.ReportedBalanceExactly` | serverM.cpp:248-250 | the reply is SUCCESS with the balance the sender then has iff the transfer is feasible and he does not pay himself or pays nothing |
| `PlainLedger.RefusalReportsExactly` | serverM.cpp:234-236 | the reply is INSUFFICIENT with the sender's unchanged balance iff both are known and it is below the amount |
| `PlainLedger.RepliesRead` | serverM.cpp:234-251 | read by its words, a success reports the balance less the amount and a refusal for funds the balance |
| `PlainLedger.WalletReplyReads` | serverM.cpp:186-204 | the wallet reply is NOTFOUND iff the name is in no transaction, and else reads as FOUND and the balance |
| `PlainLedger.PaymentMoves` | serverM.cpp:197-201 | a payment to another lowers the payer's balance and raises the payee's by its amount, and no one else's |
| `PlainLedger.FirstPayment` | serverM.cpp:48 | everyone starts with 1000 |
| `PlainLedger.StatementReads` | serverM.cpp:303-309 | the statement has one line a transaction, in order, whose words are serial, sender, receiver and amount |
| `PlainLedger.StatementIsWritten` | serverM.cpp:303-312 | the monitor is told OK and given that statement, the ledger unchanged; no other request writes one |
| `PlainLedger.SafeExactly` | serverM.cpp:234-251 | an amount can drive nobody below zero, in any ledger where everyone is solvent and for any feasible transfer, iff it is not negative |
| `PlainLedger.NegativeOverdraws` | serverM.cpp:234-251 | for every negative amount there is a ledger with serials in order, everyone solvent, and a feasible transfer that overdraws the receiver |
| `PlainLedger.WealthAfter` | serverM.cpp:197-223 | a transfer changes the wealth of any list of names by its amount times how much oftener the receiver is listed than the sender |

## Left out

- SHA-256 and Ed25519 themselves: arbitrary functions here; the vendored library and libsodium are not part of this model.
- The text of chain.jsonl, wallet.key and node.json: the store is a list of blocks whose append may fail; a file that does not parse enters as a status. The JSON library is not part of this model.
- Sockets, HTTP, RPC routing, select loops, signals and threads: only the critical sections and their interleaving are modelled.
- Command line, configuration, port derivation, wallet handling, screen messages, the detail strings of verdicts and the monitor's text.
- The derivation of the genesis addresses: the table is data, of which only five distinct non-null addresses with 1000 each are used.
- The member validateChain, the overloads that read the wall clock, and `ArrayHash`: calls with fixed arguments.
- client.cpp and monitor.cpp, and serverB.cpp and serverC.cpp, which repeat serverA.cpp with other names.
- The block files of the first version and their loading: a backend starts from the rows it holds. The text of client requests is taken as already split into words.
- MempoolModel.Mempool.Admit: the 2^64-th admission, at which the sequence counter wraps, may spoil the order of the queue; verdict and appended entry are stated for it, the invariant is not.
- MempoolModel.Mempool.EvictIncluded: when an evicted transaction collides in id with another one pending, the new maps are stated but not that they list a queue, because they then need not.
- EventLoopModel.EventLoop.Admit: the same 2^64-th admission is excluded.
- EventLoopModel.EventLoop.Commit: requires that no transaction of the block collides in id with another one pending; TransfersArePending shows that every state of a run has it.
- NodeRuns.EveryRunKeeps: holds as long as genesis, rewards and logged self-transfers count less than 2^64 and the log has fewer than 2^64 entries; beyond that balances may wrap.
- NodeTime.ServedInTime: that a search ever ends, or the timer fires, is outside the model; a search that runs past the 2^64 nonces of a timestamp is covered by CommitOutcome, not by the count of timely steps.
- Miner.Mine: the program's loop need not end; the method is given a bound, some attempt that ends the search, and the stop flag is a function of the attempt at which it is read.
- NodeModel.RestartExactly: the boot is no earlier than any write, 7200 seconds below 2^64, and every append succeeded.
- FrameModel.ReadExact: interrupts are finitely many, because a script of events is finite; after it the socket delivers all it can.
- FrameModel.WriteAll: sends that accept nothing are finitely many, for the same reason.
- Shards.MainServer.Serve: user names are words, and a receiver is not the star, which the protocol takes for no name; the rows at the start are well formed with serials 1 to n; C long is unbounded here; datagrams arrive whole.
- Shards.MainServer.QueryAll: asks the reading half of the dispatch, HandleRead, which Handle takes for every message but NEW; so does the statement.
- Shards.SortBySerial: an insertion sort stands for the library's sort; the outcome is the same because no two serials are equal.
- The timer test should_seal_now and the sleeping of the loop: a seal may happen at any step, which covers every timing.
