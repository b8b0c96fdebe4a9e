# nuChain / Z-blockchain core in Dafny

This project models the deterministic core of the nuChain and Z-blockchain repository and proves properties of that model:

- **The Z chain's UTXO module** (`z-blockchain/x/utxo`):
  - transparent and shielded transactions;
  - hardware and Equihash 144_5 mining;
  - the halving block reward;
  - the difficulty entry and its retarget every 2016 blocks;
  - the messages, message server, parameters and genesis validation.
- **The two zk-SNARK proof-of-work keepers** (`z-blockchain/x/pow`, `nuchain/x/pow`) and the proof-of-work genesis.
- **nuChain's mining module** (`nuchain/x/mining`):
  - mining rigs, pool operators and staking nodes registered from cross-chain messages;
  - the per-block NU and WATT distribution;
  - messages, parameters and genesis.
- **The oracle's two Go programs:**
  - the UTXO-sidechain bridge, with its hardware-miner registry and in-memory UTXO set;
  - the nuChain oracle keeper, with its miner registry, per-height reward records and per-block payout.
- **The Cysic hardware miner**: its rig registry, proof rounds, counters, statistics and submission payload.
- **The Z Core wallet**: the XOR-encrypted 512-byte memo, shielded transfers and the transaction history.

Every module is a set of pure functions over immutable datatypes:

- A keeper's store is one map per key prefix.
- A Go panic is `None`; an error is a `Result` or `Outcome` value.
- Bank calls, and the zk-rollup and LayerZero submissions, are recorded as an effect log. Whether a call fails is a parameter.

Several things are parameters rather than code in this model:

- Cryptography: SHA-256, ECDSA and the Cysic proof verifiers.
- Parsers: bech32 address parsing and the JSON and protobuf decoders.
- The `sdk.Dec` share of a reward.
- The clock.
- The order in which Go visits a map or a store iterator. Each loop takes it as a sequence that lists every key once, and each aggregate is proved equal to an order-independent sum (`MapSums`).

Some conventions:

- Bytes are numbers 0..255 (`Bytes.Byte`).
- Integers are unbounded. Go's `uint64` and `int64` wrap-around, its truncating division and its `int64` shift are written out where the code depends on them.
- `sdk.Int` holds at most 256 bits: an addition whose result reaches 2^256 in magnitude panics (`Decimal.AddInt`). Both UTXO transaction processors add amounts with it, so each running input and output total is checked. In the Z-chain keeper the panic aborts the transaction and its writes. In the bridge the in-memory map keeps the writes made before the panic (`BridgeUtxo.OverflowKeepsSpent`).

Two Z-chain constructions follow the code rather than the standards they resemble:

- **The compact target "bits".** Section 7.7.4 of the Zcash Protocol Specification defines nBits. The code departs from it in three ways:
  - a target of at most three bytes gets size byte 0;
  - the decoder then shifts its mantissa out entirely;
  - there is no sign bit.
- **The Equihash check.** Section 7.7.1 of the Zcash Protocol Specification defines Equihash. The code differs in two ways:
  - it hashes indices with SHA-256, not BLAKE2b;
  - it checks a simplified collision tree.

The miner's Python code behaves as follows, and the model follows it:

- Every block notice starts a round. There is no height watermark, so a repeated or older notice starts a round too (`RigMiner.RepeatedBlockTwoRounds`).
- A clock-driven loop starts further rounds, using the Unix time as a height (`RigMiner.ProofLoopTick`).
- After a connection failure it sleeps a fixed 5 seconds and reconnects.
- A submission is sent once, with no retry.
- Rigs are keyed by concatenated strings, `chain:owner:rig_id` (`RigMiner.RigKey`).

Verifying the model brought out these behaviours of the code:

- Oracle miner keys `source:miner` collide when a part contains ':' (`OracleKeeper.MinerKeyAmbiguous`).
- The oracle keeper's staleness check compares a block height with a Unix time, so a registered miner is never stale (`OracleKeeper.UnixProofTimeNeverStale`).
- A proof claiming a negative height earns the full reward (`OracleKeeper.NegativeHeightEarnsInitialReward`).
- A height's record keeps only the latest reward per miner (`OracleKeeper.LatestDistributionWins`).
- The bridge:
  - its signature check ignores the output's locking script (`BridgeUtxo.AnyKeyUnlocks`);
  - it keeps the writes of a failed transaction (`BridgeUtxo.MismatchKeepsWrites`, `BridgeUtxo.PartialSpendPersists`, `BridgeUtxo.OverflowKeepsSpent`).
- A balanced UTXO transaction can still be refused: the running output total panics at 2^256 even when later negative amounts would bring it back (`UtxoKeeper.OutputTotalOverflows`).
- Equihash mining can never pay at the starting difficulty (`EquihashMining.EquihashMiningNeverPays`).
- `UpdateMiningRig` encodes with the protobuf codec, but the keeper decodes JSON (`MiningMsgServer.UpdateMiningRigNeedsCodecAgreement`).
- The Z chain's proof-of-work keeper:
  - its block-time stub returns the absolute Unix time, which quarters the difficulty at every retarget (`PowZ.RealClockQuarters`);
  - its transaction-hash preimages have no separators (`UtxoMsgServer.TxHashCollision`).
- An inverted min/max difficulty pair is accepted and clamps oddly (`Retarget.ClampParamsInverted`).
- The miner's "cysic_proof_submission" messages are unknown to the mining module (`RigMiner.SubmissionUnknownToMiningModule`).
- The wallet's encrypted memo loses the memo's length (`Wallet.MemoLengthLost`).
- The mining keeper ignores its `Params` and uses its own constants.
- Amount strings are read with `sdk.NewIntFromString`, which is `math/big`'s base-0 `SetString`. So "010" is eight, "08" is refused, "0x10" is sixteen and "1_000" is a thousand (`Decimal.LeadingZeroIsOctal`, `Decimal.HexPrefix`, `Decimal.UnderscoreBetweenDigits`).

## Model

| member | source | states |
|---|---|---|
| UtxoTypes.UtxoKey | z-blockchain/x/utxo/keeper/keeper.go:302-305 | An outpoint's key is the tx hash, ':' and the decimal index, so it is longer than the hash |
| UtxoTypes.UtxoKeyInjective | z-blockchain/x/utxo/keeper/keeper.go:302-322 | Distinct outpoints never share a key, even when a hash contains ':' |
| DifficultyStore.GetDifficulty | z-blockchain/x/utxo/keeper/keeper.go:376-383 | An unset entry reads as 1 000 000; any read value fits in 64 bits |
| DifficultyStore.SetDifficulty | z-blockchain/x/utxo/keeper/keeper.go:385-390 | Writing stores exactly eight bytes, which a later read accepts |
| DifficultyStore.SetThenGet | z-blockchain/x/utxo/keeper/keeper.go:376-390 | Reading after writing returns the value written |
| DifficultyStore.GetThenSet | z-blockchain/x/utxo/keeper/keeper.go:376-390 | Writing back the value read leaves an eight-byte entry unchanged |
| Rewards.EpochRewardClosedForm | z-blockchain/x/utxo/keeper/keeper.go:271-284 | Halving the initial reward e times, rounding down each time, is dividing it by 2^e |
| Rewards.EpochRewardVanishes | z-blockchain/x/utxo/keeper/keeper.go:278-283 | From the 56th halving on the reward is zero, well before the 64-halving guard |
| Rewards.EpochRewardNonIncreasing | z-blockchain/x/utxo/keeper/keeper.go:271-284 | A later epoch never pays more than an earlier one |
| Rewards.RewardNonIncreasing | z-blockchain/x/utxo/keeper/keeper.go:271-284 | A later block never earns more than an earlier one |
| Rewards.RewardHalvesEachEpoch | z-blockchain/x/utxo/keeper/keeper.go:271-284 | 210 000 000 blocks later the reward is half (rounded down), and it never exceeds 0.05 token |
| Rewards.Int64Shl1 | z-blockchain/x/utxo/keeper/keeper.go:282 | The `int64` shift `1 << s` is 2^s below 63, the most negative `int64` at 63, and 0 from 64 on |
| Rewards.Quo | z-blockchain/x/utxo/keeper/keeper.go:283 | Division panics exactly on a zero divisor and is floor division for non-negative operands |
| Rewards.CappedReward | z-blockchain/x/utxo/keeper/keeper.go:271-284 | The guarded copy never panics, equals the reference schedule at every height and never exceeds the initial reward; the identical `CalculateReward` of both pow keepers (z-blockchain/x/pow/keeper/keeper.go:150-164, nuchain/x/pow/keeper/keeper.go:115-128) is this same function |
| Rewards.ShiftedQuotient | z-blockchain/x/utxo/keeper/keeper.go:282-283 | Below 64 halvings the truncated quotient by the `int64` shift is the epoch's reward, even at 63 where the divisor is negative |
| Rewards.UncappedReward | nuchain/x/mining/keeper/keeper.go:192-200 | The unguarded copy panics exactly from 64 halvings on, and elsewhere equals the reference schedule |
| Rewards.UncappedRewardPanics | nuchain/x/mining/keeper/keeper.go:195-200 | The first panicking height is 64 · 210 000 000, where the guarded copy pays 0; one block earlier the unguarded copy pays 0 |
| Rewards.HalvedBase | nuchain/x/mining/keeper/keeper.go:191-200 | The intended unguarded schedule: the initial reward divided by 2^halvings at every height, equal to the reference schedule |
| UtxoKeeper.NewKeeperConfig | z-blockchain/x/utxo/keeper/keeper.go:52-65 | A new keeper has hardware acceleration on, and the devices it supports are exactly those with a positive hardware bonus |
| UtxoKeeper.GetUtxo | z-blockchain/x/utxo/keeper/keeper.go:302-314 | An output is found iff the store has an entry under "txHash:index"; in a well-keyed store the output found carries that outpoint |
| UtxoKeeper.WellKeyedLookup | z-blockchain/x/utxo/keeper/keeper.go:302-322 | In a store where every entry sits under its own outpoint, the output under an outpoint key is that outpoint's output |
| UtxoKeeper.SetUtxo | z-blockchain/x/utxo/keeper/keeper.go:316-322 | Writing an output under its own "TxHash:OutputIndex" key keeps the store well keyed |
| UtxoKeeper.SetThenGetUtxo | z-blockchain/x/utxo/keeper/keeper.go:302-322 | Reading back a written output gives it, and every other outpoint reads as before |
| UtxoKeeper.VerifyScriptSig | z-blockchain/x/utxo/keeper/keeper.go:325-341 | A script is accepted only if the script is at least 64 bytes and the locking script is non-empty; then the verdict is the signature check of the key (bytes 64 on), the SHA-256 of the tx hash, and the signature (bytes 0-63) |
| UtxoKeeper.ScriptPubkeyIgnored | z-blockchain/x/utxo/keeper/keeper.go:325-341 | The locking script's contents never matter: any two non-empty locking scripts give the same verdict |
| UtxoKeeper.SpendInput | z-blockchain/x/utxo/keeper/keeper.go:72-95 | An absent outpoint gives "UTXO not found" and a spent one "UTXO already spent"; success means the output was stored, unspent, correctly signed and had a parseable amount, which is the amount returned |
| UtxoKeeper.SpendInputs | z-blockchain/x/utxo/keeper/keeper.go:71-96 | If the first input's outpoint is absent the loop fails with "UTXO not found" for it |
| UtxoKeeper.NewUtxo | z-blockchain/x/utxo/keeper/keeper.go:107-117 | The new output is unspent and copies address and amount; below 2^32 outputs it lands under "(TxHash, i)" (the index is truncated by `uint32(i)`) |
| UtxoKeeper.ProcessUtxoTransaction | z-blockchain/x/utxo/keeper/keeper.go:69-137 | A first input naming an absent outpoint is refused with "UTXO not found"; on success the fee parsed, the transaction is recorded under its hash, and the shielded stores are untouched |
| UtxoKeeper.SpendInputsStep | z-blockchain/x/utxo/keeper/keeper.go:72-95 | One successful input turn: the outpoint was stored and unspent, its amount parsed, adding it kept the total inside the `sdk.Int` range, it was written back spent, and the loop carries on with the rest |
| UtxoKeeper.SpendInputsChecked | z-blockchain/x/utxo/keeper/keeper.go:72-95 | A successful input loop saw every input stored, unspent, correctly signed and parseable, and no outpoint twice |
| UtxoKeeper.SpendInputsAt | z-blockchain/x/utxo/keeper/keeper.go:72-95 | Input j of a successful loop was stored, unspent, correctly signed and parseable before the loop, and no earlier input named its outpoint |
| UtxoKeeper.SpendTurnOk | z-blockchain/x/utxo/keeper/keeper.go:73-95 | A turn on a stored, unspent, correctly signed output of parseable amount whose addition stays in range marks exactly that output spent and keeps the store well keyed |
| UtxoKeeper.SpendableRest | z-blockchain/x/utxo/keeper/keeper.go:72-95 | Once the first of spendable, signed, parseable inputs is marked spent, the remaining inputs still are all three |
| UtxoKeeper.MarkSpentFrame | z-blockchain/x/utxo/keeper/keeper.go:93-95 | Marking an output spent changes neither the input amounts nor their sum |
| UtxoKeeper.SpendInputsComplete | z-blockchain/x/utxo/keeper/keeper.go:71-95 | Conversely, inputs that are stored, unspent, named once, correctly signed and of parseable amount, and whose running total never reaches 2^256 in magnitude, all get spent |
| UtxoKeeper.SpendInputsTotal | z-blockchain/x/utxo/keeper/keeper.go:71-91 | A successful input loop had spendable inputs, no running total of it left the `sdk.Int` range, and it totals exactly the spent outputs' amounts |
| UtxoKeeper.SpendInputsSums | z-blockchain/x/utxo/keeper/keeper.go:87-91 | A successful input loop ends on the start total plus the spent outputs' amounts, which fits whenever the start did |
| UtxoKeeper.SpendInputsFit | z-blockchain/x/utxo/keeper/keeper.go:91 | No running total of a successful input loop reached 2^256 in magnitude |
| UtxoKeeper.SpendInputsEffect | z-blockchain/x/utxo/keeper/keeper.go:93-95 | After a successful input loop, exactly the inputs' outputs are marked spent, no key is added, and nothing else changed |
| UtxoKeeper.OutputKeyFresh | z-blockchain/x/utxo/keeper/keeper.go:108-119 | Below 2^32 outputs, no later output of the transaction is stored under output i's key |
| UtxoKeeper.CreateOutputs | z-blockchain/x/utxo/keeper/keeper.go:99-120 | The output loop fails only on an unparseable amount or an `sdk.Int` overflow; it succeeds iff every amount parses and no running total reaches 2^256 in magnitude, and then totals the amounts |
| UtxoKeeper.OutputTotal | z-blockchain/x/utxo/keeper/keeper.go:99-105 | The output arithmetic fails only on an unparseable amount or an `sdk.Int` overflow |
| UtxoKeeper.OutputTotalStep | z-blockchain/x/utxo/keeper/keeper.go:100-105 | A turn whose amount parses and whose addition stays in range carries on from the next index with the amount added |
| UtxoKeeper.OutputTotalOk | z-blockchain/x/utxo/keeper/keeper.go:99-105 | The output arithmetic from index i succeeds iff every remaining amount parses and every running total stays below 2^256 in magnitude |
| UtxoKeeper.OutputTotalSum | z-blockchain/x/utxo/keeper/keeper.go:99-105 | Successful output arithmetic adds exactly the remaining amounts to the running total, which then fits whenever the start did |
| UtxoKeeper.StoreOutputsEffect | z-blockchain/x/utxo/keeper/keeper.go:107-120 | Below 2^32 outputs the output writes add exactly the outputs' keys, keep the store well keyed, and leave every other key as it was |
| UtxoKeeper.StoreOutputsKeeps | z-blockchain/x/utxo/keeper/keeper.go:107-120 | An entry none of the output writes targets is left as it was |
| UtxoKeeper.StoreOutputsStored | z-blockchain/x/utxo/keeper/keeper.go:107-119 | After the output writes each output is stored under its outpoint as the new unspent output |
| UtxoKeeper.OutputKeysHas | z-blockchain/x/utxo/keeper/keeper.go:108-119 | Every output from index i on has its outpoint among the keys the loop writes |
| UtxoKeeper.ProcessUtxoTransactionOk | z-blockchain/x/utxo/keeper/keeper.go:69-136 | Success means both loops ran to the end, the fee parsed, adding it to the output total stayed in range, inputs equal outputs plus fee, and the stored set is the one the output loop left |
| UtxoKeeper.ProcessUtxoTransactionSound | z-blockchain/x/utxo/keeper/keeper.go:71-131 | Success means every input named a stored unspent output, none twice, with a valid signature; all amounts and the fee parsed; no running input or output total left the `sdk.Int` range; and the input sum equals the output sum plus the fee |
| UtxoKeeper.ProcessUtxoTransactionComplete | z-blockchain/x/utxo/keeper/keeper.go:71-131 | Conversely, a transaction meeting all of those conditions, its running totals included, is accepted |
| UtxoKeeper.OutputTotalOverflows | z-blockchain/x/utxo/keeper/keeper.go:105 | Two outputs of 2^256 - 1 make `Add` panic: the transaction fails with the overflow even when later outputs of -(2^256 - 1) would balance it |
| UtxoKeeper.ProcessUtxoTransactionEffect | z-blockchain/x/utxo/keeper/keeper.go:93-120 | After success every input is spent unless an output of the same transaction took its key, each output i is stored unspent under (TxHash, i), exactly the output keys are added, and every other entry is unchanged |
| UtxoKeeper.DoubleSpendRejected | z-blockchain/x/utxo/keeper/keeper.go:78-95 | A transaction naming one outpoint twice fails: the first use is written back spent before the second is read |
| UtxoKeeper.UnspendableInputRejected | z-blockchain/x/utxo/keeper/keeper.go:72-80 | An input whose outpoint is absent or spent, at any position, makes the transaction fail |
| UtxoKeeper.CommitmentKey | z-blockchain/x/utxo/keeper/keeper.go:355-360 | A commitment is keyed by itself followed by 8 bytes of height |
| UtxoKeeper.CommitmentKeyInjective | z-blockchain/x/utxo/keeper/keeper.go:355-360 | The key determines the commitment and the height modulo 2^64 |
| UtxoKeeper.RecordNullifiers | z-blockchain/x/utxo/keeper/keeper.go:147-152 | The nullifier loop succeeds iff no nullifier is already used and none repeats within the transaction, and then records exactly those nullifiers |
| UtxoKeeper.AddCommitments | z-blockchain/x/utxo/keeper/keeper.go:155-157 | The commitment keys afterwards are the old ones plus each commitment keyed at the block height |
| UtxoKeeper.ProcessShieldedTransaction | z-blockchain/x/utxo/keeper/keeper.go:140-163 | A bad proof is refused first; success holds iff the proof verifies and the nullifiers are fresh and pairwise distinct; then nullifiers, commitments and the transaction are recorded and the outputs are untouched |
| UtxoKeeper.NullifierReplayRejected | z-blockchain/x/utxo/keeper/keeper.go:146-152 | After a shielded transaction succeeds, any later one reusing one of its nullifiers fails |
| UtxoKeeper.HardwareBonus | z-blockchain/x/utxo/keeper/keeper.go:287-299 | The bonus is positive exactly for nvidia-a100, nvidia-h100 and xilinx-fpga, and is at most 0.015 Z |
| UtxoKeeper.DistributeMiningReward | z-blockchain/x/utxo/keeper/keeper.go:228-255 | On success the calls made are a mint of reward plus bonus of "z" to the module, then a send of the same amount to the miner; a failure is a bank failure |
| UtxoKeeper.MineBlock | z-blockchain/x/utxo/keeper/keeper.go:166-196 | Acceleration off and an unsupported device are refused first, in that order; success means the proof verified, met the stored difficulty, the address parsed, and exactly the reward mint and send were made |
| UtxoKeeper.MineBlockWithDefaults | z-blockchain/x/utxo/keeper/keeper.go:166-187 | Under the keeper's own configuration a paid device has a positive bonus, and with no stored difficulty the proof met at least 1 000 000 |
| UtxoKeeper.GetDifficulty | z-blockchain/x/utxo/keeper/keeper.go:376-383 | With nothing stored the difficulty is 1 000 000 |
| UtxoKeeper.SetDifficulty | z-blockchain/x/utxo/keeper/keeper.go:385-390 | Get after set returns the value written as 8 big-endian bytes; outputs and nullifiers are untouched |
| Equihash.ConstantsAgree | z-blockchain/x/utxo/types/equihash.go:13-29 | The derived 144_5 constants are a 24-bit, 3-byte collision, an 18-byte hash, 32 indices and a 2^25-entry list |
| Equihash.GenerateEquihashChallenge | z-blockchain/x/utxo/types/equihash.go:60-91 | The challenge is 20 bytes longer than the previous-block hash and Merkle root together |
| Equihash.ChallengeLayout | z-blockchain/x/utxo/types/equihash.go:60-91 | Version, previous hash, Merkle root, timestamp, bits and nonce are each read back from their offsets, little-endian |
| Equihash.VerifyEquihashSolution | z-blockchain/x/utxo/types/equihash.go:94-105 | An accepted solution has exactly 32 indices, no index twice and every index below 2^20 |
| Equihash.Verify144_5 | z-blockchain/x/utxo/types/equihash.go:108-133 | Passing needs pairwise-distinct indices, all below 2^20 |
| Equihash.NoDuplicatesScan | z-blockchain/x/utxo/types/equihash.go:114-120 | The seen-set loop finds no duplicate exactly when the indices are pairwise distinct and none was seen before |
| Equihash.IndexHash | z-blockchain/x/utxo/types/equihash.go:151-157 | An index hash is three bytes long |
| Equihash.IndexHashes | z-blockchain/x/utxo/types/equihash.go:141-144 | One index hash per index, in order |
| Equihash.VerifyCollisionTree | z-blockchain/x/utxo/types/equihash.go:136-148 | At most one index always passes; a passing tree over more has colliding combined hashes for its two halves |
| Equihash.VerifyTreeCollisions | z-blockchain/x/utxo/types/equihash.go:160-179 | A range of at most one hash passes; a longer passing range has colliding combined hashes for its two halves |
| Equihash.CombineHashes | z-blockchain/x/utxo/types/equihash.go:182-194 | A single hash stands for itself; any other number of hashes combines to three bytes |
| Equihash.HasCollision | z-blockchain/x/utxo/types/equihash.go:197-219 | Two hashes collide iff both have at least three bytes and agree on bytes 0 and 1; the third byte is never compared, because 24 bits fill whole bytes |
| Equihash.TreeLeafPairs | z-blockchain/x/utxo/types/equihash.go:160-179 | In a passing tree over 2^m leaves, the node over every aligned pair of leaves passed its own test |
| Equihash.PairCollides | z-blockchain/x/utxo/types/equihash.go:160-179 | A passing node over two hashes means those two hashes collide |
| Equihash.HashPairsCollide | z-blockchain/x/utxo/types/equihash.go:160-179 | In a passing tree over 2^m hashes, hashes 2j and 2j+1 collide |
| Equihash.SolutionPairsCollide | z-blockchain/x/utxo/types/equihash.go:136-148 | In a passing 32-index solution, the index hashes of indices 2j and 2j+1 agree on their first two bytes |
| Equihash.IsAsicResistant | z-blockchain/x/utxo/types/equihash.go:270-283 | The check holds iff the miner has at least 1024 MB, GPU mining on and the ASIC-resistant flag set |
| Equihash.EstimateEquihashMemoryUsage | z-blockchain/x/utxo/types/equihash.go:286-293 | The estimate is always 720 MB |
| CompactBits.CalculateEquihashDifficulty | z-blockchain/x/utxo/types/equihash.go:222-246 | The compact form fits in 32 bits, and a non-positive target encodes as 0 |
| CompactBits.Pack | z-blockchain/x/utxo/types/equihash.go:241-242 | The top byte is the size modulo 256, and below it are the three mantissa bytes |
| CompactBits.SmallTargetEncoding | z-blockchain/x/utxo/types/equihash.go:238-239 | A target of one to three bytes is shifted into a mantissa with a non-zero top byte, under size byte 0 |
| CompactBits.LargeTargetEncoding | z-blockchain/x/utxo/types/equihash.go:240-243 | A longer target has its byte length modulo 256 on top, and its leading three bytes (the target divided by 256^(size-3)) below |
| CompactBits.GetEquihashTarget | z-blockchain/x/utxo/types/equihash.go:249-267 | Bits 0 decode to 0, and a size byte of at most 3 decodes below 2^24 |
| CompactBits.DecodeLarge | z-blockchain/x/utxo/types/equihash.go:263-266 | A size byte above 3 decodes to the mantissa times 256^(size-3) |
| CompactBits.SmallTargetDecodesToZero | z-blockchain/x/utxo/types/equihash.go:238-261 | A target below 2^24 gets size byte 0 and decodes to 0 |
| CompactBits.CompactRoundTrip | z-blockchain/x/utxo/types/equihash.go:222-267 | For 4 to 255 bytes, decoding the encoding keeps the top three bytes and zeroes the rest: the result is at most the target and less than 256^(size-3) below it |
| CompactBits.CompactDecodeEncode | z-blockchain/x/utxo/types/equihash.go:222-267 | Encoding the decoded target gives back any normalised bits (size 4 to 255, top mantissa byte non-zero) |
| CompactBits.CompactSizeWraps | z-blockchain/x/utxo/types/equihash.go:242 | The size is cut to 8 bits: a power of 256 with 256·j + 1 bytes encodes with size 1 and decodes to 1 |
| CompactBits.SmallTargetShifted | z-blockchain/x/utxo/types/equihash.go:238-239 | A one- to three-byte target shifted to three bytes lies in [2^16, 2^24) |
| CompactBits.MantissaOfTarget | z-blockchain/x/utxo/types/equihash.go:229-241 | The first three bytes of `target.Bytes()` read as the target divided by 256^(size-3) |
| CompactBits.ShortIffSmall | z-blockchain/x/utxo/types/equihash.go:229-238 | A positive target has at most three bytes iff it is below 2^24 |
| EquihashMining.NewEquihashMiningKeeper | z-blockchain/x/utxo/keeper/equihash_mining.go:26-33 | The new keeper wraps the base keeper with a positive difficulty whose compact form decodes to a target of zero |
| EquihashMining.CreateEquihashHeader | z-blockchain/x/utxo/keeper/equihash_mining.go:76-88 | The header has version 1, the proof's nonce, no solution, and the block time truncated to 32 bits, which is exact for times in range |
| EquihashMining.SolutionBytes | z-blockchain/x/utxo/keeper/equihash_mining.go:136-139 | The index bytes are four per index |
| EquihashMining.ParseIndices | z-blockchain/x/utxo/keeper/equihash_mining.go:105-108 | Parsing gives one 32-bit index per four bytes |
| EquihashMining.ParseIndicesAt | z-blockchain/x/utxo/keeper/equihash_mining.go:105-108 | Index i is the little-endian value of bytes 4i to 4i+3 |
| EquihashMining.ParseSolutionBytes | z-blockchain/x/utxo/keeper/equihash_mining.go:105-108 | Parsing the encoded indices gives the indices back |
| EquihashMining.SolutionBytesOfParse | z-blockchain/x/utxo/keeper/equihash_mining.go:136-139 | Re-encoding the parsed indices, as `calculateSolutionHash` does, gives the proof bytes back |
| EquihashMining.ParseEquihashSolution | z-blockchain/x/utxo/keeper/equihash_mining.go:91-115 | A proof under 8 bytes is "too short"; parsing succeeds iff the proof is exactly 136 bytes, and then gives the little-endian nonce of bytes 0-7, the clock's timestamp and 32 indices that re-encode to bytes 8-135 |
| EquihashMining.ParseEquihashSolutionInjective | z-blockchain/x/utxo/keeper/equihash_mining.go:91-115 | Two proofs that parse to the same solution are the same bytes |
| EquihashMining.Blake2bStub | z-blockchain/x/utxo/keeper/equihash_mining.go:148-154 | The stand-in hash is 32 bytes: the data's first bytes, then zeros |
| EquihashMining.CalculateSolutionHash | z-blockchain/x/utxo/keeper/equihash_mining.go:131-145 | The solution hash starts with the low byte of the header version |
| EquihashMining.SolutionHashFloor | z-blockchain/x/utxo/keeper/equihash_mining.go:118-154 | For a version-1 header the hash, read big-endian, is at least 256^31 whatever the solution |
| EquihashMining.TargetAtMostDifficulty | z-blockchain/x/utxo/keeper/equihash_mining.go:84 | The target the difficulty encodes to never exceeds the difficulty, below 256 bytes |
| EquihashMining.SmallDifficultyTarget | z-blockchain/x/utxo/keeper/equihash_mining.go:84 | A difficulty below 256^31 encodes to a target below 256^31 |
| EquihashMining.Flag | z-blockchain/x/utxo/keeper/equihash_mining.go:164 | A Go map lookup is true only for a key that is present |
| EquihashMining.VerifyAsicResistance | z-blockchain/x/utxo/keeper/equihash_mining.go:157-181 | A device passes exactly when it is one of the eight listed GPUs; the listed ASICs fail |
| EquihashMining.GpuBonus | z-blockchain/x/utxo/keeper/equihash_mining.go:214-231 | The bonus is positive exactly for the eight listed GPUs, between 0.002 and 0.0055 Z |
| EquihashMining.Payout | z-blockchain/x/utxo/keeper/equihash_mining.go:185-200 | The bank calls are a mint of the block reward plus the GPU bonus of "z", then a send of the same amount to the miner |
| EquihashMining.DistributeEquihashReward | z-blockchain/x/utxo/keeper/equihash_mining.go:184-211 | The payout succeeds iff the bank refuses neither call, and then both calls were made; a failure names the refused call |
| EquihashMining.ProcessEquihashMining | z-blockchain/x/utxo/keeper/equihash_mining.go:36-73 | An empty hardware id is refused before anything else, then a too-short proof; success means a 136-byte proof from a listed GPU with a parseable address, paid exactly the payout |
| EquihashMining.ProcessSolution | z-blockchain/x/utxo/keeper/equihash_mining.go:51-72 | Past parsing, success means a listed GPU, a parseable address and exactly the payout |
| EquihashMining.ProcessSolutionChecks | z-blockchain/x/utxo/keeper/equihash_mining.go:51-59 | A solution failing the 144_5 check is refused as such, and success needs both that check and the target check (hash at most the decoded target) |
| EquihashMining.AcceptedSolutionCollides | z-blockchain/x/utxo/keeper/equihash_mining.go:36-59 | An accepted submission has 32 distinct indices below 2^20, and the index hashes of each aligned pair collide |
| EquihashMining.EquihashMiningNeverPays | z-blockchain/x/utxo/keeper/equihash_mining.go:118-154 | While the difficulty is below 256^31, 1 000 000 included, every submission is refused: the stand-in hash is at least 256^31 and the target is below it |
| EquihashMining.GetBlockTimeRange | z-blockchain/x/utxo/keeper/equihash_mining.go:299-303 | Over 2016 blocks the stub returns exactly the target time, 500 ms times 2016 |
| EquihashMining.BigUint64 | z-blockchain/x/utxo/keeper/equihash_mining.go:288 | `Uint64()` gives a value below 2^64, and the value itself when it fits |
| EquihashMining.ScaleDifficulty | z-blockchain/x/utxo/keeper/equihash_mining.go:271-285 | The new difficulty lies within [cur/4, 4·cur], and equals cur·target/actual whenever that does |
| EquihashMining.AdjustEquihashDifficulty | z-blockchain/x/utxo/keeper/equihash_mining.go:258-296 | Off the 2016-block boundary nothing changes; on it, the stored difficulty is the low 64 bits of the new in-memory one and the outputs are untouched |
| EquihashMining.AdjustKeepsDifficulty | z-blockchain/x/utxo/keeper/equihash_mining.go:266-285 | With the block-time stub, adjustment never changes a non-negative difficulty |
| EquihashMining.AdjustAllKeeps | z-blockchain/x/utxo/keeper/equihash_mining.go:258-303 | Any run of adjustments keeps a non-negative difficulty |
| EquihashMining.AdjustedKeeperNeverPays | z-blockchain/x/utxo/keeper/equihash_mining.go:26-303 | From a fresh keeper, after any run of adjustments, the difficulty is still 1 000 000 and no submission is paid |
| EquihashMining.CheckDifficultyTarget | z-blockchain/x/utxo/keeper/equihash_mining.go:117-128 | A version-1 header fails against every target below 256^31, since its hash starts with byte 1; a target of 2^256 or more passes every solution |
| Retarget.MulU64 | z-blockchain/x/utxo/abci.go:52 | The `uint64` product is below 2^64, and exact when the true product fits |
| Retarget.ToU64 | z-blockchain/x/utxo/abci.go:52 | Converting an `int64` to `uint64` gives a value below 2^64, the value itself when non-negative |
| Retarget.Scale | z-blockchain/x/utxo/abci.go:52 | The scaled difficulty panics exactly when the converted actual time is 0; without wrap-around it is cur·target divided by actual, rounded down |
| Retarget.ClampQuarter | z-blockchain/x/utxo/abci.go:54-59 | The factor-of-four limit stays below 2^64 |
| Retarget.ClampQuarterBounds | z-blockchain/x/utxo/abci.go:54-59 | Without wrap-around the limited value lies in [cur/4, 4·cur], and it is unchanged iff it was already there |
| Retarget.ClampParams | z-blockchain/x/utxo/abci.go:62-67 | The parameter limit returns the proposal, the minimum or the maximum, and a proposal below the minimum becomes the minimum |
| Retarget.ClampParamsBounds | z-blockchain/x/utxo/abci.go:62-67 | Whenever min ≤ max the result lies between them, and it is the proposal iff the proposal lies between them |
| Retarget.ClampParamsInverted | z-blockchain/x/utxo/abci.go:62-67 | With min > max a small proposal becomes the minimum but a large one the maximum, below the minimum |
| UtxoAbci.NextDifficulty | z-blockchain/x/utxo/abci.go:44-67 | The next difficulty panics exactly when the actual time converts to 0, fits in 64 bits, and with ordered bounds lies within [Min, Max] |
| UtxoAbci.AdjustDifficulty | z-blockchain/x/utxo/abci.go:40-85 | The stored difficulty becomes the next difficulty and nothing else in the state changes; the event carries the old and new difficulty and the height |
| UtxoAbci.AdjustDifficultyStable | z-blockchain/x/utxo/abci.go:47-69 | Since the time range always reads 500, a difficulty within the bounds is unchanged as long as cur·500 does not wrap |
| UtxoAbci.AdjustDifficultyWraps | z-blockchain/x/utxo/abci.go:52-59 | When cur·500 wraps, the smallest wrapping difficulty drops to a quarter of itself |
| UtxoAbci.AdjustDifficultyEventDecodes | z-blockchain/x/utxo/abci.go:72-79 | The announced old and new values read back as the difficulties before and after |
| UtxoAbci.BeginBlocker | z-blockchain/x/utxo/abci.go:11-19 | Off a positive multiple of 2016 nothing changes and no event is emitted; on one exactly one difficulty event is emitted and outputs and transactions are untouched |
| UtxoAbci.DifficultyConstantBetweenRetargets | z-blockchain/x/utxo/abci.go:11-15 | A run of blocks with no retarget height leaves the state unchanged |
| UtxoAbci.RunBeginBlockers | z-blockchain/x/utxo/abci.go:11-19 | Running the begin-blocker over any sequence of blocks keeps the difficulty entry readable |
| UtxoAbci.EndBlocker | z-blockchain/x/utxo/abci.go:22-37 | One "block_processed" event whose height and timestamp attributes read back as the block height and Unix time |
| UtxoAbci.GetBlockTimeRange | z-blockchain/x/utxo/abci.go:105-110 | The time range always reads as the 500 ms target block time |
| UtxoAbci.IsRetargetHeight | z-blockchain/x/utxo/abci.go:13 | The retarget heights are exactly the positive multiples of 2016 |
| UtxoMsgs.Route | z-blockchain/x/utxo/types/messages.go:27-29 | Every message routes to the module's router key |
| UtxoMsgs.TypeDistinguishesKinds | z-blockchain/x/utxo/types/messages.go:31-33 | Two messages with the same type string are of the same kind |
| UtxoMsgs.Type | z-blockchain/x/utxo/types/messages.go:31-33 | Each kind of message has its own type constant, and the constant identifies the kind |
| UtxoMsgs.ValidateSendUtxo | z-blockchain/x/utxo/types/messages.go:48-67 | Checks in source order, first failure reported; passes iff the creator decodes, there are inputs and outputs, and the fee is non-empty |
| UtxoMsgs.ValidateSendShielded | z-blockchain/x/utxo/types/messages.go:103-122 | Passes iff the creator decodes, the proof and the nullifier list are non-empty and the fee is non-empty; commitments may be empty |
| UtxoMsgs.ValidateSubmitMiningProof | z-blockchain/x/utxo/types/messages.go:158-177 | Passes iff the creator decodes, the proof and hardware ID are non-empty and the difficulty is positive |
| UtxoMsgs.ValidateBasic | z-blockchain/x/utxo/types/messages.go:50-52 | An undecodable creator is always the reported failure, whatever the kind of message |
| UtxoMsgs.GetSigners | z-blockchain/x/utxo/types/messages.go:35-41 | Panics exactly when the creator does not decode, and otherwise the one signer is the decoded creator |
| UtxoMsgs.ValidatedMsgHasSigner | z-blockchain/x/utxo/types/messages.go:48-52 | A message that passed basic validation never makes the signer lookup panic |
| UtxoEvents.SendUtxoEvent | z-blockchain/x/utxo/keeper/msg_server.go:64-73 | The "send_utxo" event's creator, hash and fee are the message's, and its counts read back as decimal numbers equal to the input and output counts |
| UtxoEvents.SendShieldedEvent | z-blockchain/x/utxo/keeper/msg_server.go:117-126 | The "send_shielded" event's nullifier and commitment counts read back as the message's |
| UtxoEvents.SubmitMiningProofEvent | z-blockchain/x/utxo/keeper/msg_server.go:167-175 | The "submit_mining_proof" event's difficulty and nonce read back as the message's |
| UtxoEvents.DifficultyAdjustEvent | z-blockchain/x/utxo/abci.go:72-79 | The "difficulty_adjustment" event carries old and new difficulty and the height as decimal text |
| UtxoEvents.BlockProcessedEvent | z-blockchain/x/utxo/abci.go:30-36 | The "block_processed" event carries the height and the block time in seconds as decimal text |
| UtxoMsgServer.GenerateTxHash | z-blockchain/x/utxo/keeper/msg_server.go:183-195 | The hash is 64 hex digits that decode to the SHA-256 of the concatenated creator, inputs, outputs, fee and lock time |
| UtxoMsgServer.TxHashPreimage | z-blockchain/x/utxo/keeper/msg_server.go:184-191 | The preimage starts with the creator, ends with the lock time's digits, and is exactly as long as its parts together: no separators |
| UtxoMsgServer.GenerateShieldedTxHash | z-blockchain/x/utxo/keeper/msg_server.go:197-208 | The hash is 64 hex digits that decode to the SHA-256 of creator, fee and the hex of every nullifier and commitment |
| UtxoMsgServer.TxHashCollision | z-blockchain/x/utxo/keeper/msg_server.go:184-191 | Two different transfer messages get the same hash because the preimage has no separators |
| UtxoMsgServer.ShieldedTxHashCollision | z-blockchain/x/utxo/keeper/msg_server.go:198-204 | Two different shielded messages get the same hash |
| UtxoMsgServer.TransactionOf | z-blockchain/x/utxo/keeper/msg_server.go:48-56 | The transaction handed to the keeper carries the message's inputs, outputs and fee under the computed hash |
| UtxoMsgServer.SendUtxoHandler | z-blockchain/x/utxo/keeper/msg_server.go:28-78 | The handler's three checks in order, then the keeper; succeeds iff they pass and the keeper accepts, and then returns the keeper's state, the event and the hash |
| UtxoMsgServer.SendUtxoCreatesOutputs | z-blockchain/x/utxo/keeper/msg_server.go:45-77 | After a successful transfer each of the message's outputs is stored unspent under the returned hash and its position |
| UtxoMsgServer.SendUtxoPrechecksWeaker | z-blockchain/x/utxo/keeper/msg_server.go:32-42 | A message that passed basic validation can fail in the handler only inside the keeper |
| UtxoMsgServer.SendShieldedHandler | z-blockchain/x/utxo/keeper/msg_server.go:81-131 | The handler's checks in order, then the keeper; succeeds iff they pass and no nullifier was used before |
| UtxoMsgServer.MiningProofOf | z-blockchain/x/utxo/keeper/msg_server.go:151-159 | The proof handed to the keeper names the creator as miner and keeps the message's difficulty and hardware ID |
| UtxoMsgServer.SubmitMiningProofHandler | z-blockchain/x/utxo/keeper/msg_server.go:134-180 | The handler's checks in order, then block mining; succeeds iff they pass and the keeper accepts, returning the keeper's bank calls and `Success: true` |
| UtxoMsgServer.SubmitMiningProofPaysCreator | z-blockchain/x/utxo/keeper/msg_server.go:151-164 | A successful submission's creator decodes, and the keeper makes exactly two bank calls, the second sending the minted amount to that address |
| UtxoParams.DefaultParams | z-blockchain/x/utxo/types/params.go:46-55 | The default bounds are ordered and the H100 is among the supported devices |
| UtxoParams.Validate | z-blockchain/x/utxo/types/params.go:70-90 | The first failing validator's error in source order; passes iff the block reward is non-empty, the halving interval positive, both difficulty bounds non-zero and the device list non-empty |
| UtxoParams.DefaultParamsValid | z-blockchain/x/utxo/types/params.go:46-55 | The default parameters pass validation |
| UtxoParams.InvertedBoundsAccepted | z-blockchain/x/utxo/types/params.go:124-148 | A minimum difficulty above the maximum passes validation, since each bound is checked alone |
| UtxoGenesis.DefaultGenesis | z-blockchain/x/utxo/types/genesis.go:9-21 | The default genesis has the default params and no outputs or transactions |
| UtxoGenesis.ValidateUtxos | z-blockchain/x/utxo/types/genesis.go:34-44 | The loop over UTXOs reports the first violation in the list of every UTXO's checks in order |
| UtxoGenesis.ValidateTransactions | z-blockchain/x/utxo/types/genesis.go:47-54 | The loop over transactions reports the first violation; a transaction is refused only when it has neither inputs nor outputs |
| UtxoGenesis.Validate | z-blockchain/x/utxo/types/genesis.go:24-57 | The first violation in source order, params last; a zero halving interval always fails first, and a passing genesis has valid params and every UTXO with hash, address and amount |
| UtxoGenesis.AllUtxoPass | z-blockchain/x/utxo/types/genesis.go:34-44 | A UTXO list with no violations has every field the loop checks filled in |
| UtxoGenesis.DefaultGenesisValid | z-blockchain/x/utxo/types/genesis.go:9-21 | The default genesis passes validation |
| PowGenesis.DefaultGenesis | z-blockchain/x/pow/types/genesis.go:9-18 | The default difficulty is 1,000,000 and the halving interval 210,000,000, with the default params |
| PowGenesis.Validate | z-blockchain/x/pow/types/genesis.go:21-31 | Passes iff the halving interval and the difficulty are non-zero and the params pass; a zero interval is reported before a zero difficulty |
| PowGenesis.DefaultGenesisChecks | z-blockchain/x/pow/types/genesis.go:9-31 | The default genesis passes exactly when the default params do |
| PowGenesis.NegativeHalvingAccepted | z-blockchain/x/pow/types/genesis.go:22-24 | A negative halving interval passes the genesis check |
| ZkPow.PreparePublicInputs | z-blockchain/x/pow/keeper/keeper.go:167-188 | The public inputs are as long as both hashes, eight difficulty bytes and the miner's address together |
| ZkPow.PublicInputsLayout | z-blockchain/x/pow/keeper/keeper.go:167-188 | Each field reads back from its place: both hashes, the difficulty as a big-endian number, and the miner's address as the tail |
| ZkPow.PublicInputsInjective | nuchain/x/pow/keeper/keeper.go:160-180 | For one block, equal public inputs mean the same difficulty and the same miner |
| ZkPow.Payout | z-blockchain/x/pow/keeper/keeper.go:130-141 | Two bank calls: mint the height's reward to the module, then send that same amount to the miner |
| ZkPow.DistributeReward | nuchain/x/pow/keeper/keeper.go:102-112 | Succeeds iff neither bank call fails, returning both; otherwise reports the first failing call of the two |
| PowZ.DistributeReward | z-blockchain/x/pow/keeper/keeper.go:130-141 | On success the calls mint and send the halving schedule's reward at the height in "z"; a failure names a failing call |
| PowZ.MineBlock | z-blockchain/x/pow/keeper/keeper.go:75-90 | Rejected as an invalid proof exactly when the verifier refuses the inputs built from the stored difficulty; otherwise the reward distribution's outcome |
| PowZ.ProofBoundToMiner | z-blockchain/x/pow/keeper/keeper.go:77-86 | For a verifier that accepts a proof for one input per block, a proof that paid one miner is refused for every other miner |
| PowZ.AdjustDifficulty | z-blockchain/x/pow/keeper/keeper.go:209-234 | Off a multiple of 2016 the store is unchanged; on one it panics iff the block time converts to 0, and otherwise stores a readable 64-bit difficulty |
| PowZ.AdjustDifficultyBounds | z-blockchain/x/pow/keeper/keeper.go:224-231 | Without wrap-around the new difficulty lies within a factor of four of the current one, and is `cur*500/actual` when that is already in range |
| PowZ.RealClockQuarters | z-blockchain/x/pow/keeper/keeper.go:237-241 | Because the block-time stub returns the absolute Unix time, any retarget at a time of 2000 s or later divides the difficulty by four |
| PowNu.DistributeReward | nuchain/x/pow/keeper/keeper.go:102-112 | On success the calls mint and send the halving schedule's reward at the height in "nu"; a failure names a failing call |
| PowNu.L1Batch | nuchain/x/pow/keeper/keeper.go:131-143 | The rollup batch carries the block's height, hash, time, the proof and the transaction count |
| PowNu.BankEffects | nuchain/x/pow/keeper/keeper.go:107-111 | The bank calls attempted are a prefix of the payout, stopping after the first failure |
| PowNu.MineBlock | nuchain/x/pow/keeper/keeper.go:83-99 | An invalid proof makes no calls; the attempt succeeds iff the proof verifies, neither reward call fails and the L1 accepts the batch; the batch is submitted only third, after both reward calls succeeded |
| PowNu.L1FailureAfterReward | nuchain/x/pow/keeper/keeper.go:94-98 | An L1 failure is reported only after both reward calls were made and succeeded |
| MiningParams.NewParams | nuchain/x/mining/types/params.go:26-40 | Each parameter is stored in its own field |
| MiningParams.DefaultParams | nuchain/x/mining/types/params.go:43-51 | The defaults name Altcoinchain and Polygon as supported chains and leave the LayerZero endpoint empty |
| MiningParams.Validate | nuchain/x/mining/types/params.go:65-82 | The first failing validator's error in source order; passes iff the minimum stake and block reward are non-empty, the halving interval positive and the chain list non-empty |
| MiningParams.DefaultParamsValid | nuchain/x/mining/types/params.go:43-51 | The default parameters pass validation |
| MiningParams.EndpointUnchecked | nuchain/x/mining/types/params.go:142-150 | Changing the LayerZero endpoint never changes the validation outcome |
| MiningGenesis.DefaultGenesis | nuchain/x/mining/types/genesis.go:9-17 | The default genesis has the default params, no rigs, pools or nodes, and height 0 |
| MiningGenesis.ValidateRigs | nuchain/x/mining/types/genesis.go:22-32 | The loop over rigs reports the first violation in the list of every rig's checks in order |
| MiningGenesis.ValidatePools | nuchain/x/mining/types/genesis.go:35-42 | The loop over pool operators reports the first violation |
| MiningGenesis.ValidateNodes | nuchain/x/mining/types/genesis.go:45-52 | The loop over staking nodes reports the first violation |
| MiningGenesis.Validate | nuchain/x/mining/types/genesis.go:20-55 | The first violation in source order, params last; a passing genesis has valid params and every node with an operator and at least 21 NU staked |
| MiningGenesis.AllNodesPass | nuchain/x/mining/types/genesis.go:45-52 | A node list with no violations has every operator set and every stake at least 21 NU |
| MiningGenesis.DefaultGenesisValid | nuchain/x/mining/types/genesis.go:9-17 | The default genesis passes validation |
| MiningGenesis.CreatedNodePassesGenesis | nuchain/x/mining/types/genesis.go:45-52 | A node the corrected keeper creates for a non-empty operator passes the genesis node check, so exported nodes import again (stake widened to an unbounded number) |
| MiningEvents.JoinComma | nuchain/x/mining/keeper/msg_server.go:60 | Joining a single chain id gives that id |
| MiningEvents.JoinCommaInjective | nuchain/x/mining/keeper/msg_server.go:60 | Non-empty chain lists without commas are determined by their joined text |
| MiningEvents.JoinCommaAmbiguous | nuchain/x/mining/keeper/msg_server.go:60 | A chain id holding a comma reads back as two chains |
| MiningEvents.CreateStakingNodeEvent | nuchain/x/mining/keeper/msg_server.go:55-62 | The "create_staking_node" event's creator and moniker are the message's and its chain attribute is the comma-joined list |
| MiningEvents.ProcessCrossChainMessageEvent | nuchain/x/mining/keeper/msg_server.go:100-107 | The "process_cross_chain_message" event's source chain and type are the message's and its nonce reads back as the message's |
| MiningEvents.UpdateMiningRigEvent | nuchain/x/mining/keeper/msg_server.go:157-165 | The "update_mining_rig" event's token id, hash power and watts read back as the message's |
| MiningMsgs.Route | nuchain/x/mining/types/messages.go:24-26 | Every message routes to the module's router key |
| MiningMsgs.TypeDistinguishesKinds | nuchain/x/mining/types/messages.go:28-30 | Two messages with the same type string are of the same kind |
| MiningMsgs.Type | nuchain/x/mining/types/messages.go:28-30 | Each kind of message has its own type constant, and the constant identifies the kind |
| MiningMsgs.ValidateCreateStakingNode | nuchain/x/mining/types/messages.go:45-60 | Passes iff the creator decodes, the moniker is non-empty and some chain is named, failures in source order |
| MiningMsgs.ValidateProcessCrossChainMessage | nuchain/x/mining/types/messages.go:95-110 | Passes iff the creator decodes and source chain and type are non-empty; payload and nonce are not checked |
| MiningMsgs.ValidateUpdateMiningRig | nuchain/x/mining/types/messages.go:147-162 | Passes iff the creator decodes, the token id is non-zero and the chain id non-empty |
| MiningMsgs.ValidateBasic | nuchain/x/mining/types/messages.go:46-49 | An undecodable creator is always the reported failure |
| MiningMsgs.ZeroHashPowerPassesValidateBasic | nuchain/x/mining/types/messages.go:147-162 | A rig update with zero hash power passes basic validation |
| MiningMsgs.GetSigners | nuchain/x/mining/types/messages.go:32-38 | Panics exactly when the creator does not decode; otherwise the one signer is the decoded creator |
| MiningMsgs.ValidatedMsgHasSigner | nuchain/x/mining/types/messages.go:45-49 | A message that passed basic validation never makes the signer lookup panic |
| MiningKeeper.RigKey | nuchain/x/mining/keeper/keeper.go:107 | A rig key is the rig prefix, the token id's decimal digits, '-' and the chain id |
| MiningKeeper.RigKeyInjective | nuchain/x/mining/keeper/keeper.go:107 | A rig key determines its token id and chain id |
| MiningKeeper.PoolKey | nuchain/x/mining/keeper/keeper.go:135 | A pool key is the operator prefix, the address, '-' and the chain id |
| MiningKeeper.PoolKeyAmbiguous | nuchain/x/mining/keeper/keeper.go:135 | Two different operator address and chain pairs can share one pool key |
| MiningKeeper.NodeKey | nuchain/x/mining/keeper/keeper.go:170 | A node key is the node prefix followed by the operator address |
| MiningKeeper.NodeKeyInjective | nuchain/x/mining/keeper/keeper.go:170 | A node key determines its operator |
| MiningKeeper.KeySpacesDisjoint | nuchain/x/mining/keeper/keeper.go:107-170 | Rig, pool and node keys never coincide, since their prefixes differ |
| MiningKeeper.ProcessMiningRigUpdate | nuchain/x/mining/keeper/keeper.go:94-119 | Fails on an undecodable payload or zero hash power; otherwise stores the decoded rig under its token and chain, leaving every other rig alone |
| MiningKeeper.ProcessPoolOperatorStake | nuchain/x/mining/keeper/keeper.go:122-146 | Fails on an undecodable payload or an operator without staked WATT; otherwise stores the operator under its key, leaving the others alone |
| MiningKeeper.ProcessCrossChainMessage | nuchain/x/mining/keeper/keeper.go:80-91 | Unknown types are refused and each known type goes to its own handler |
| MiningKeeper.SenderIgnored | nuchain/x/mining/keeper/keeper.go:80-146 | Sender, nonce and timestamp of a relayed registration make no difference to the outcome |
| MiningKeeper.CalculateVotingPower | nuchain/x/mining/keeper/keeper.go:335-338 | The voting power is the whole number of NU staked, rounded down |
| MiningKeeper.GetStakedAmount | nuchain/x/mining/keeper/keeper.go:328-332 | The placeholder reports exactly the required 21 NU for every operator |
| MiningKeeper.CreateStakingNode | nuchain/x/mining/keeper/keeper.go:149-181 | Fails iff less than 21 NU is staked, naming both amounts; otherwise stores an online node for the operator with its moniker, chains, height, stake and voting power, leaving other nodes alone |
| MiningKeeper.StakedNuAsWritten | nuchain/x/mining/keeper/keeper.go:161 | The 64-bit conversion of the stake panics exactly for amounts of 2^64 or more and is exact otherwise |
| MiningKeeper.CreateStakingNodeAsWritten | nuchain/x/mining/keeper/keeper.go:149-166 | As written, a stake below 21 NU is refused and every other stake panics in the conversion |
| MiningKeeper.PlaceholderStakeOverflows | nuchain/x/mining/keeper/keeper.go:328-332 | The placeholder stake is at least 2^64, so the written code panics where the corrected one creates the node |
| MiningKeeper.PlaceholderStakeAccepted | nuchain/x/mining/keeper/keeper.go:149-166 | With the placeholder stake every request succeeds with voting power 21 |
| MiningKeeper.GetTotalHashPower | nuchain/x/mining/keeper/keeper.go:309-325 | The total is below 2^64 and is the wrapped sum, in iteration order, of the active rigs' hash power |
| MiningKeeper.TotalHashPowerIsSum | nuchain/x/mining/keeper/keeper.go:309-325 | Whatever the iteration order, the total is the sum over all stored rigs of active hash power, modulo 2^64 |
| MiningKeeper.InactiveRigIgnored | nuchain/x/mining/keeper/keeper.go:319-321 | Changing an inactive rig's hash power leaves the total unchanged |
| MiningKeeper.RigPayment | nuchain/x/mining/keeper/keeper.go:221-253 | One rig's bank calls stop at the first failure, which is the last call made, and every earlier call succeeded |
| MiningKeeper.DistributeMiningRewards | nuchain/x/mining/keeper/keeper.go:216-257 | The loop's bank calls stop at the first failure, which is the last call made, and every earlier call succeeded |
| MiningKeeper.TotalsAppend | nuchain/x/mining/keeper/keeper.go:236-245 | Minted and sent totals add up over concatenated call lists |
| MiningKeeper.RigPaymentTotals | nuchain/x/mining/keeper/keeper.go:225-249 | A rig's completed payment mints what the rig is owed and sends what reaches its owner |
| MiningKeeper.MiningRewardTotals | nuchain/x/mining/keeper/keeper.go:216-257 | When no bank call fails the loop mints exactly the owed shares of all rigs and sends exactly those whose owner address parses |
| MiningKeeper.NodeMessages | nuchain/x/mining/keeper/keeper.go:268-284 | An offline or missing node gets no message; an online one gets one 0.001 WATT message per supported chain, in order |
| MiningKeeper.DistributeStakingRewards | nuchain/x/mining/keeper/keeper.go:260-288 | The number of messages is the total number of chains of online nodes, each for 0.001 WATT at the block height |
| MiningKeeper.DistributeBlockRewards | nuchain/x/mining/keeper/keeper.go:184-213 | Refused with no bank calls iff the total hash power is zero; otherwise the rig payouts of the height's halved reward, then on success the WATT messages |
| MiningMsgServer.CreateStakingNodeHandler | nuchain/x/mining/keeper/msg_server.go:27-65 | The handler's checks in order, then address decoding, then the keeper; on success the keeper's node is stored under the creator and the event emitted |
| MiningMsgServer.ValidatedStakingNodeCreated | nuchain/x/mining/keeper/msg_server.go:31-52 | Every message that passed basic validation is accepted by the handler |
| MiningMsgServer.CrossChainMessageOf | nuchain/x/mining/keeper/msg_server.go:85-92 | The relayed message keeps the source chain, type, payload and nonce, with the creator as sender and the block time |
| MiningMsgServer.ProcessCrossChainMessageHandler | nuchain/x/mining/keeper/msg_server.go:68-110 | The handler's checks in order, then the keeper's outcome; on success the event carries the message's chain, type and nonce |
| MiningMsgServer.AnyCreatorMayRelay | nuchain/x/mining/keeper/msg_server.go:85-97 | A registration relayed by one account has the same effect as the same one relayed by any other |
| MiningMsgServer.RigOf | nuchain/x/mining/keeper/msg_server.go:130-139 | The rig is owned by the creator, dated at the block time, and keeps the message's other fields |
| MiningMsgServer.RigUpdateMessage | nuchain/x/mining/keeper/msg_server.go:142-149 | The relayed rig update comes from the rig's chain, has nonce 0 and carries the binary encoding of the rig |
| MiningMsgServer.UpdateMiningRigHandler | nuchain/x/mining/keeper/msg_server.go:113-168 | The handler's checks in order, then the keeper's rig update; on success the event carries the message's values |
| MiningMsgServer.UpdateMiningRigNeedsCodecAgreement | nuchain/x/mining/keeper/msg_server.go:145-153 | The rig is stored only if the keeper's JSON decoder reads the binary encoding back as that rig, and every well-formed update fails if it cannot read it |
| Bridge.NewBridge | oracle/utxo-sidechain-bridge.go:118-144 | A new bridge holds no UTXOs, pending transactions, miners or pools |
| Bridge.CalculateBaseReward | oracle/utxo-sidechain-bridge.go:211-224 | The base reward is the halving schedule's value at the height and never exceeds 0.05 Z |
| Bridge.GetHardwareBonus | oracle/utxo-sidechain-bridge.go:227-241 | Only the listed devices earn a bonus, at most 0.015 Z; any other device earns 0 |
| Bridge.BonusTablesAgree | oracle/utxo-sidechain-bridge.go:227-241 | Every device the Z-chain keeper pays a bonus gets the same bonus here, and the two consumer GPUs get one only here |
| Bridge.TotalReward | oracle/utxo-sidechain-bridge.go:159-162 | The reward paid is the base reward at the height plus the device bonus |
| Bridge.ZPayout | oracle/utxo-sidechain-bridge.go:244-259 | Two bank calls: mint the amount of "z" to the bridge module, then send it to the recipient |
| Bridge.NuReward | oracle/utxo-sidechain-bridge.go:262-285 | The nuChain request asks for an NU reward equal to the Z reward, for the miner's addresses, device, height and time |
| Bridge.ProcessHardwareMining | oracle/utxo-sidechain-bridge.go:147-179 | An unregistered miner is refused with no calls; success iff the proof verifies, the address parses and every call succeeds, and only then are the proof time and the miner's rewards updated, nothing else changing |
| Bridge.RegisterHardwareMiner | oracle/utxo-sidechain-bridge.go:343-374 | Stores an active miner with no rewards under its address, replacing any earlier registration and leaving other miners alone |
| Bridge.RegisterThenMine | oracle/utxo-sidechain-bridge.go:356-366 | Registering again erases the rewards recorded, and a fresh miner's first successful proof records exactly the reward it was paid |
| BridgeBlocks.SolverOf | oracle/utxo-sidechain-bridge.go:543-545 | No solver iff no miner in the order has the device; otherwise the first miner in the order that has it |
| BridgeBlocks.Credited | oracle/utxo-sidechain-bridge.go:546-547 | The credited miner's rewards grow by the block reward plus the device bonus, all else unchanged |
| BridgeBlocks.ProcessHardwareMiningRewards | oracle/utxo-sidechain-bridge.go:541-555 | Credits the first miner in iteration order whose device is the block's and nobody else; with no such miner nothing changes |
| BridgeBlocks.AtMostOneCredited | oracle/utxo-sidechain-bridge.go:543-553 | At most one miner is credited per block |
| BridgeBlocks.SolverCredited | oracle/utxo-sidechain-bridge.go:543-553 | When some miner has the block's device, exactly the first such miner in iteration order is credited |
| BridgeBlocks.IterationOrderPicksSolver | oracle/utxo-sidechain-bridge.go:543-553 | With two miners on the same device, the map's iteration order alone decides which is credited |
| BridgeBlocks.ActiveCountIsSize | oracle/utxo-sidechain-bridge.go:576-578 | Counting active miners one by one gives the number of active miners |
| BridgeBlocks.TotalActiveHashPower | oracle/utxo-sidechain-bridge.go:510-515 | The total is below 2^64 and is the wrapped sum, in iteration order, of the active miners' hash power |
| BridgeBlocks.StatsAreSums | oracle/utxo-sidechain-bridge.go:576-583 | The loop's four sums over a full iteration order equal the order-free sums over all miners |
| BridgeBlocks.GetMiningStats | oracle/utxo-sidechain-bridge.go:570-593 | The number of active miners, their wrapped hash-power and watt sums and their reward sum, and the sizes of the UTXO set, pending set and pools |
| BridgeBlocks.TotalsAreSums | oracle/utxo-sidechain-bridge.go:576-583 | Each figure of the loop equals its sum in iteration order, the 64-bit ones modulo 2^64 |
| BridgeBlocks.CountsAreSums | oracle/utxo-sidechain-bridge.go:578-581 | The loop's count and reward total equal their sums in iteration order |
| BridgeBlocks.WrappedAreSums | oracle/utxo-sidechain-bridge.go:579-580 | The loop's 64-bit hash-power and watt totals equal their sums in iteration order modulo 2^64 |
| BridgeBlocks.SumActiveMiners | oracle/utxo-sidechain-bridge.go:576-583 | The loop computes the totals of the miners it visits |
| BridgeBlocks.DistributeNuRewards | oracle/utxo-sidechain-bridge.go:509-538 | With no active hash power nothing changes; otherwise every active miner's rewards grow by its share of the 0.05 NU base and nothing else changes |
| BridgeBlocks.NuShares | oracle/utxo-sidechain-bridge.go:524-537 | Every active miner's rewards grow by its share and every inactive miner stays as it was |
| BridgeBlocks.NuRewardsOrderFree | oracle/utxo-sidechain-bridge.go:509-538 | Any two iteration orders distribute the same rewards |
| BridgeUtxo.VerifyScriptSig | oracle/utxo-sidechain-bridge.go:557-567 | A script shorter than 64 bytes is refused; otherwise the first 64 bytes must be a valid signature of the transaction hash under the rest |
| BridgeUtxo.AnyKeyUnlocks | oracle/utxo-sidechain-bridge.go:557-567 | The output's locking script is ignored: a signature under any key the spender brings unlocks it |
| BridgeUtxo.ScriptSigAgreesWithKeeper | oracle/utxo-sidechain-bridge.go:557-567 | On an output with a locking script the bridge's check equals the Z-chain keeper's |
| BridgeUtxo.Refusal | oracle/utxo-sidechain-bridge.go:292-307 | An input is refused exactly when its output is missing, already spent or wrongly signed, or when adding its amount takes the total out of the `sdk.Int` range; a missing one is reported as not found, and no refusal is a mismatch |
| BridgeUtxo.SpendInputs | oracle/utxo-sidechain-bridge.go:290-311 | The input loop never adds or removes a key, never reports an amount mismatch, reports a missing first input as not found, and passes only on inputs that exist unspent with a valid signature |
| BridgeUtxo.SpendInputsExact | oracle/utxo-sidechain-bridge.go:290-311 | The input loop passes iff every input exists unspent with a valid signature, no two inputs name one output and no running total reaches 2^256 in magnitude; then it totals their amounts |
| BridgeUtxo.SpendInputsSound | oracle/utxo-sidechain-bridge.go:290-311 | A passing input loop had spendable inputs |
| BridgeUtxo.SpendInputsSums | oracle/utxo-sidechain-bridge.go:290-311 | A passing input loop kept every running total in range and ends on the start plus the amounts of the outputs its inputs name |
| BridgeUtxo.SpendInputsFlags | oracle/utxo-sidechain-bridge.go:309-310 | The loop changes no entry but its spent flag, whether it passes or fails |
| BridgeUtxo.SpendInputsMarks | oracle/utxo-sidechain-bridge.go:309-310 | After a passing loop every input's output is marked spent |
| BridgeUtxo.SpendInputsKeeps | oracle/utxo-sidechain-bridge.go:290-311 | An entry no input names is left as it was |
| BridgeUtxo.SpendInputsRefused | oracle/utxo-sidechain-bridge.go:293-305 | When the first input is refused the loop fails with nothing changed and the total untouched |
| BridgeUtxo.SpendInputsComplete | oracle/utxo-sidechain-bridge.go:290-311 | Spendable inputs whose running totals stay inside the `sdk.Int` range always pass the loop |
| BridgeUtxo.SpendableRest | oracle/utxo-sidechain-bridge.go:290-311 | Once the first of spendable inputs is marked spent, the remaining inputs are still spendable and read the entries they read before |
| BridgeUtxo.NewUtxo | oracle/utxo-sidechain-bridge.go:318-327 | A new output is unspent, keeps the output's address, amount and script, and records its position truncated to 32 bits |
| BridgeUtxo.CreateOutputs | oracle/utxo-sidechain-bridge.go:314-332 | The output loop only ever adds keys of the outputs from i on, and keeps every key it had |
| BridgeUtxo.CreateOutputsSums | oracle/utxo-sidechain-bridge.go:314-332 | The output loop panics exactly when a running total reaches 2^256 in magnitude; otherwise it adds exactly the outputs' keys and totals their amounts |
| BridgeUtxo.CreateOutputsFits | oracle/utxo-sidechain-bridge.go:316 | The output loop overflows iff some running total leaves the `sdk.Int` range |
| BridgeUtxo.CreateOutputsTotals | oracle/utxo-sidechain-bridge.go:314-332 | Without overflow the output loop adds exactly the outputs' keys and ends on the start plus their amounts |
| BridgeUtxo.CreateOutputsFrame | oracle/utxo-sidechain-bridge.go:314-331 | An entry whose key is not a new output's is left as it was |
| BridgeUtxo.CreateOutputsStored | oracle/utxo-sidechain-bridge.go:318-331 | Unless a running total overflowed, each new output is stored under its transaction hash and position |
| BridgeUtxo.ProcessUtxoTransaction | oracle/utxo-sidechain-bridge.go:288-339 | A missing first input fails with nothing changed; success iff the inputs are spendable, no running input or output total reaches 2^256 in magnitude, and the input total equals the outputs plus the fee; a mismatch is reported only then, with the three totals; keys are only ever added, and only output keys |
| BridgeUtxo.ProcessSpendable | oracle/utxo-sidechain-bridge.go:288-332 | With spendable inputs and in-range totals both loops run to the end and the set is what the output loop left |
| BridgeUtxo.ProcessSpendableOutcome | oracle/utxo-sidechain-bridge.go:334-337 | With spendable inputs, in-range totals and an in-range output-plus-fee sum, the outcome is a pass iff the input total equals it, and a mismatch carrying the three totals otherwise |
| BridgeUtxo.SpendableWrites | oracle/utxo-sidechain-bridge.go:288-331 | With spendable inputs and in-range totals the set gains every output, marks the inputs spent, and leaves every entry that is neither an input's nor an output's exactly as it was |
| BridgeUtxo.MismatchKeepsWrites | oracle/utxo-sidechain-bridge.go:334-337 | On an amount mismatch (totals in range) the error is reported but the inputs stay spent and the outputs stay created |
| BridgeUtxo.OverflowKeepsSpent | oracle/utxo-sidechain-bridge.go:307-316 | When the output total overflows after spendable inputs were spent, the transaction fails with the overflow and the inputs stay marked spent |
| BridgeUtxo.PartialSpendPersists | oracle/utxo-sidechain-bridge.go:290-311 | When the second input fails, the first stays marked spent |
| BridgeUtxo.DoubleSpendRejected | oracle/utxo-sidechain-bridge.go:297-300 | A transaction naming one output twice always fails |
| OracleKeeper.NewOracleKeeper | oracle/nuchain-cosmos-module.go:63-75 | A new oracle has no miners and no reward records, and its hash-power counter agrees with them |
| OracleKeeper.MinerKey | oracle/nuchain-cosmos-module.go:98 | A miner key is the source chain, ':' and the miner address |
| OracleKeeper.MinerKeyAmbiguous | oracle/nuchain-cosmos-module.go:98 | A colon inside the source chain or address makes two different miners share a key |
| OracleKeeper.MinerKeyInjective | oracle/nuchain-cosmos-module.go:98 | When neither source chain holds ':', the key determines chain and address |
| OracleKeeper.SameHashPowerSameSum | oracle/nuchain-cosmos-module.go:153-154 | Changing a miner's other fields leaves the sum of hash power alone |
| OracleKeeper.Registered | oracle/nuchain-cosmos-module.go:106-116 | A new miner is active with no pending rewards, dated at the block time, and keeps the message's addresses, rigs and figures |
| OracleKeeper.ProcessMinerRegistration | oracle/nuchain-cosmos-module.go:97-128 | Refused iff the key is already taken; otherwise the miner is stored under its key, others untouched, and the counter grows by its hash power in 64 bits |
| OracleKeeper.RegistrationKeepsCount | oracle/nuchain-cosmos-module.go:118-119 | Registration keeps the counter equal to the sum of all registered miners' hash power modulo 2^64 |
| OracleKeeper.SumOverInsert | oracle/nuchain-cosmos-module.go:118-119 | Adding a new miner adds exactly its hash power to the sum over miners |
| OracleKeeper.CollidingMinerRejected | oracle/nuchain-cosmos-module.go:98-103 | A different miner whose chain and address join to the same key is refused as already registered |
| OracleKeeper.HalvedBaseRewardAsWritten | oracle/nuchain-cosmos-module.go:175-183 | As written: a negative height keeps the full 0.05 NU; otherwise the shift panics from 64 halvings on and below that the value is the halving schedule's |
| OracleKeeper.HalvedBaseReward | oracle/nuchain-cosmos-module.go:175-183 | The corrected base: equal to the written computation wherever that does not panic and 0 where it does; the schedule's value at every non-negative height and the full 0.05 NU at a negative one |
| OracleKeeper.CalculateMinerReward | oracle/nuchain-cosmos-module.go:173-194 | With a zero counter the miner gets the whole corrected base, otherwise its share of it |
| OracleKeeper.ZeroCounterPaysSchedule | oracle/nuchain-cosmos-module.go:186-188 | With a zero counter a proof at any height earns the halving schedule's value, and nothing from the 64th halving on |
| OracleKeeper.RewardPanicsAtSixtyFourHalvings | oracle/nuchain-cosmos-module.go:180-183 | The written calculation panics at 64 halvings and pays 0 one block earlier |
| OracleKeeper.DistributeNuTokens | oracle/nuchain-cosmos-module.go:197-212 | An unparsable address fails with no calls; a negative amount panics; otherwise it succeeds iff neither bank call fails, and a failure names the last call made |
| OracleKeeper.StoreBlockReward | oracle/nuchain-cosmos-module.go:215-231 | The height's record is created on first use and keeps its time; its total grows by the reward, the miner's distribution is overwritten by it, and other heights are untouched |
| OracleKeeper.StoreAll | oracle/nuchain-cosmos-module.go:215-231 | Storing rewards adds the height's record and no other |
| OracleKeeper.StoreAllAccumulates | oracle/nuchain-cosmos-module.go:215-231 | After rewards at a fresh height, the record's total is their sum, its time is the first store's, and it has one entry per distinct miner address |
| OracleKeeper.StoredMinersSnoc | oracle/nuchain-cosmos-module.go:229 | Storing one more reward adds its miner's address to the recorded addresses |
| OracleKeeper.LatestDistributionWins | oracle/nuchain-cosmos-module.go:228-229 | Two rewards to one miner at one height add to the total, but the distribution keeps only the second |
| OracleKeeper.ProcessCysicProofSubmission | oracle/nuchain-cosmos-module.go:131-165 | Unregistered miners and rejected proofs fail with no calls; it panics iff a verified miner with a valid address gets a negative share; on success the miner is paid its reward, its proof time and pending rewards are updated, nobody else changes and the reward is recorded |
| OracleKeeper.ProofSubmissionKeepsCount | oracle/nuchain-cosmos-module.go:152-154 | A proof submission keeps the hash-power counter in agreement with the miners |
| OracleKeeper.ProofNotBoundToMiner | oracle/nuchain-cosmos-module.go:140-142 | A proof accepted for one miner is not rejected as invalid for any other registered miner, since the miner is not part of what is checked |
| OracleKeeper.NegativeHeightEarnsInitialReward | oracle/nuchain-cosmos-module.go:177-188 | With a zero counter a proof claiming a negative height earns the full 0.05 NU |
| OracleKeeper.ProcessCrossChainMiningMessage | oracle/nuchain-cosmos-module.go:78-94 | An undecodable message fails; each known type goes to its own handler and any other is refused as unknown |
| OracleKeeper.UnknownTypeOnlyFromDispatch | oracle/nuchain-cosmos-module.go:84-93 | The unknown-type error arises exactly for types other than the handled ones |
| OracleKeeper.GetMinerStats | oracle/nuchain-cosmos-module.go:234-238 | Found iff a miner is stored under the chain and address's key, and then it is that miner |
| OracleKeeper.RegisteredMinerFound | oracle/nuchain-cosmos-module.go:97-128 | After a registration the miner is found under the message's chain and address |
| OracleKeeper.WattSumWrapped | oracle/nuchain-cosmos-module.go:245-248 | The watt total is below 2^64 and is the wrapped sum in iteration order |
| OracleKeeper.GetNetworkStats | oracle/nuchain-cosmos-module.go:241-258 | Miner and record counts, the stored counter, the fixed chain list, the sum of pending rewards and the watt sum modulo 2^64, whatever the iteration order |
| OracleKeeper.StatsIgnoreActivity | oracle/nuchain-cosmos-module.go:245-248 | Deactivating a miner does not change the network figures |
| OracleKeeper.StatsHashPowerIsSum | oracle/nuchain-cosmos-module.go:252 | When the counter agrees with the miners, the reported hash power is their sum modulo 2^64 |
| OracleKeeper.PayOne | oracle/nuchain-cosmos-module.go:265-291 | An inactive or stale miner is untouched; only pending rewards change, by a positive reward and only after the payout to its address; an eligible miner with a positive reward whose two bank calls succeed is credited |
| OracleKeeper.PayAll | oracle/nuchain-cosmos-module.go:265-291 | The loop keeps the set of miners and leaves every miner it does not visit unchanged |
| OracleKeeper.PayAllPointwise | oracle/nuchain-cosmos-module.go:265-291 | When each key is visited once, every miner ends as its own iteration leaves it |
| OracleKeeper.ProcessBlockRewards | oracle/nuchain-cosmos-module.go:261-294 | Each miner ends as its own iteration leaves it; the set of miners, the counter and the block records are untouched |
| OracleKeeper.SkippedMinersUnchanged | oracle/nuchain-cosmos-module.go:266-277 | An inactive miner, or one whose last proof is more than 10 behind, is left unchanged |
| OracleKeeper.BlockRewardsOrderFree | oracle/nuchain-cosmos-module.go:265-291 | Any two iteration orders give the same final state |
| OracleKeeper.BlockRewardsKeepCount | oracle/nuchain-cosmos-module.go:261-294 | Paying block rewards keeps the counter in agreement with the miners |
| OracleKeeper.UnixProofTimeNeverStale | oracle/nuchain-cosmos-module.go:271 | The staleness check compares a height with a Unix time, so a miner registered at any plausible block time is never stale |
| RigMiner.Lookup | oracle/cysic-hardware-miner.py:38 | A key is absent iff no entry has it, and otherwise the rig found is stored under it |
| RigMiner.Put | oracle/cysic-hardware-miner.py:177-178 | After storing, the key finds the new rig and every other key finds what it found before; a new key is appended, an existing one keeps its place |
| RigMiner.LookupCons | oracle/cysic-hardware-miner.py:38 | Looking a key up in a registry with a first entry finds that entry's rig or looks further |
| RigMiner.PutExisting | oracle/cysic-hardware-miner.py:177-178 | Storing a rig under a key that already holds it leaves the registry as it was |
| RigMiner.NewMiner | oracle/cysic-hardware-miner.py:36-56 | A new miner has no rigs, proofs or rewards, and takes the configured device, ASIC flag and oracle contracts or their defaults |
| RigMiner.OracleAddress | oracle/cysic-hardware-miner.py:147-150 | A chain has an oracle address iff it is configured with a non-empty address |
| RigMiner.RigKey | oracle/cysic-hardware-miner.py:177 | A rig key is the chain, ':', the owner, ':' and the rig id's digits |
| RigMiner.StoreRigsSize | oracle/cysic-hardware-miner.py:176-178 | Storing rigs never removes an entry and adds at most one per rig |
| RigMiner.StoreRigsOthers | oracle/cysic-hardware-miner.py:176-178 | Storing rigs leaves every key that none of them has as it was |
| RigMiner.StoreRigsLast | oracle/cysic-hardware-miner.py:176-178 | After storing, a rig's key holds that rig unless a later rig took the same key |
| RigMiner.MockKeysDiffer | oracle/cysic-hardware-miner.py:155-177 | The two mock rigs get different registry keys on any chain |
| RigMiner.LoadRigsFromChain | oracle/cysic-hardware-miner.py:142-184 | Without an oracle address nothing changes and no rigs are returned; otherwise both mock rigs are stored under their keys, nothing else changes, and at most two entries are added |
| RigMiner.ReloadOverwrites | oracle/cysic-hardware-miner.py:176-178 | Loading the same chain twice leaves the registry as the first load left it |
| RigMiner.LoadMiningRigs | oracle/cysic-hardware-miner.py:127-140 | The count reported is two for each of Altcoinchain and Polygon that has an oracle address, and the registry grows by at most four |
| RigMiner.RequestFor | oracle/cysic-hardware-miner.py:237-252 | The prover request carries the rig's id, hash power and watts, the height, the miner's device and ASIC flag, and the hex of the public inputs prepared at the rig's own clock reading |
| RigMiner.RequestInputsDecode | oracle/cysic-hardware-miner.py:248 | The request's hex field decodes back to those public inputs |
| RigMiner.ProofForRig | oracle/cysic-hardware-miner.py:232-283 | A proof is returned iff the prover answers 200 with a body whose proof and key are valid hex; it carries those bytes, the public inputs prepared at the clock reading, the device and the time |
| RigMiner.Active | oracle/cysic-hardware-miner.py:219 | The active rigs are exactly the stored rigs that are active |
| RigMiner.CountSome | oracle/cysic-hardware-miner.py:273 | The number of successful proofs is at most the number of attempts |
| RigMiner.TriggerProofGeneration | oracle/cysic-hardware-miner.py:217-230 | One request per active rig, in order, at the height, each with its own clock reading; the proof counter grows by the number of proofs obtained |
| RigMiner.ProofsNeedSuccess | oracle/cysic-hardware-miner.py:261-273 | The counter grows by at most one per request, and only if some request got a 200 answer |
| RigMiner.SomeIndex | oracle/cysic-hardware-miner.py:273 | A positive proof count has a successful attempt behind it |
| RigMiner.NoActiveRigNoRequest | oracle/cysic-hardware-miner.py:221-222 | With no active rig there are no requests and nothing changes |
| RigMiner.ProofLoopTick | oracle/cysic-hardware-miner.py:303-315 | With no rigs a tick does nothing; otherwise it runs a round at the current Unix time used as the height, the rigs reading the clock again |
| RigMiner.BlockRounds | oracle/cysic-hardware-miner.py:186-215 | At most one round per notice, and the monitor stops iff some message is malformed or a block notice has no height |
| RigMiner.RoundsAreBlockHeights | oracle/cysic-hardware-miner.py:203-210 | Without malformed messages the rounds are exactly the block notices' heights, in order |
| RigMiner.BlockHeights | oracle/cysic-hardware-miner.py:204-208 | There are at most as many block heights as notices |
| RigMiner.RepeatedBlockTwoRounds | oracle/cysic-hardware-miner.py:203-210 | A block announced twice runs two rounds |
| RigMiner.RunRounds | oracle/cysic-hardware-miner.py:210 | Rounds leave rigs and rewards unchanged and never lower the proof counter |
| RigMiner.EncodeMiningPayload | oracle/cysic-hardware-miner.py:393-408 | The payload names the rig's owner and address, one rig id, its figures, the proof's device, height and time, and the hex fields decode to the proof's bytes |
| RigMiner.SubmitToNuchain | oracle/cysic-hardware-miner.py:359-391 | Without a relayer address nothing is sent; otherwise the transaction is a proof submission from the relayer with the encoded payload, timestamped by the first clock reading and with the second as nonce, and the reward counter grows by one iff the broadcast answers 200 with code 0 and a hash |
| RigMiner.RewardNeedsCodeZero | oracle/cysic-hardware-miner.py:382-386 | The reward counter grows only when the broadcast answered with code 0 |
| RigMiner.SubmissionUnknownToMiningModule | nuchain/x/mining/keeper/keeper.go:80-91 | The "cysic_proof_submission" type the miner sends is refused by the mining module as unknown |
| RigMiner.Stats | oracle/cysic-hardware-miner.py:336-347 | The active count is the number of active rigs, hash power and watts are summed over all rigs, and counters are the miner's |
| RigMiner.DeactivationKeepsSums | oracle/cysic-hardware-miner.py:336-344 | Deactivating a rig leaves the hash-power and watt totals alone and lowers the active count by one |
| RigMiner.ActiveRigsAreRequests | oracle/cysic-hardware-miner.py:219-230 | The reported active count equals the number of proof requests a round makes |
| Wallet.XorBits | z-core-wallet/main.go:153 | The exclusive or of two n-bit numbers is again an n-bit number |
| Wallet.XorBitsTwice | z-core-wallet/main.go:153 | Applying the same key twice with exclusive or gives back the n-bit original |
| Wallet.XorBitsSelf | z-core-wallet/main.go:153 | A number combined with itself by exclusive or is zero |
| Wallet.XorTwice | z-core-wallet/main.go:153 | A byte combined twice with the same key byte is the original byte |
| Wallet.XorSelf | z-core-wallet/main.go:153 | A byte combined with itself is zero |
| Wallet.XorWithKey | z-core-wallet/main.go:149-154 | Each byte is combined with the key byte at its position modulo 32, and the length is kept |
| Wallet.EncryptMemo | z-core-wallet/main.go:147-163 | The encrypted memo is always 512 bytes: the first bytes are the memo's combined with the key, any rest is zero padding |
| Wallet.EncryptMemoFor | z-core-wallet/main.go:147-163 | The memo sent to a recipient is 512 bytes, from which the recipient's key recovers a memo of up to 512 bytes |
| Wallet.RecipientRecoversMemo | z-core-wallet/main.go:147-163 | A memo of at most 512 bytes is recovered by applying the same key to its prefix of the encrypted memo |
| Wallet.LongMemoTruncated | z-core-wallet/main.go:162 | A memo longer than 512 bytes encrypts like its first 512 bytes: the rest is dropped |
| Wallet.MemoLengthLost | z-core-wallet/main.go:156-162 | A memo and the same memo with one more byte equal to the key byte at that position encrypt identically, so the length cannot be told from the result |
| Wallet.TimeHash | z-core-wallet/main.go:126-130 | The nullifier, and the transaction hash, are 64 hex digits |
| Wallet.CreateShieldedTransfer | z-core-wallet/main.go:100-123 | Sender, recipient and amount are blanked; the transfer carries the time-based nullifier, the proof over the clear fields and a 512-byte encrypted memo |
| Wallet.ClearFieldsHidden | z-core-wallet/main.go:113-120 | Two transfers from the same wallet at the same instant with the same memo differ at most in memo and proof, whatever their recipients and amounts |
| Wallet.TransferMemoForRecipient | z-core-wallet/main.go:111 | The recipient recovers the memo with the hash of its own address |
| Wallet.CreateTransaction | z-core-wallet/main.go:188-237 | The answer is 400 iff the body does not decode or the amount is not a signed 64-bit decimal; a private request yields a shielded transfer and records nothing; a public one appends one pending record from the wallet with the request's fields |
| Wallet.HistoryAppendOnly | z-core-wallet/main.go:232 | Over any sequence of requests the history keeps its old records and grows by one pending, public record from the wallet per recorded request; address and balance never change |
| Bytes.PutUint32LE | z-blockchain/x/utxo/types/equihash.go:66 | `binary.LittleEndian.PutUint32` writes four bytes whose little-endian value is the number |
| Bytes.PutUint64LE | z-blockchain/x/utxo/types/equihash.go:87 | `binary.LittleEndian.PutUint64` writes eight bytes whose little-endian value is the number |
| Bytes.FromLEOfLE | z-blockchain/x/utxo/keeper/equihash_mining.go:136-139 | Writing a number that fits in k bytes little-endian and reading it back gives the number |
| Bytes.LEOfFromLE | z-blockchain/x/utxo/keeper/equihash_mining.go:105-108 | Reading bytes little-endian and writing the value back in as many bytes gives the same bytes |
| Bytes.Uint32 | z-blockchain/x/utxo/keeper/keeper.go:110 | `uint32(n)` keeps a value below 2^32 congruent to n, and leaves n alone when it already fits |
| Bytes.PutUint64BE | z-blockchain/x/pow/keeper/keeper.go:203-204 | `binary.BigEndian.PutUint64` writes eight bytes whose big-endian value is the number |
| Bytes.Uint64BE | z-blockchain/x/pow/keeper/keeper.go:197 | `binary.BigEndian.Uint64` reads a value below 2^64 from the first eight bytes |
| Bytes.Uint64BERoundTrip | z-blockchain/x/pow/keeper/keeper.go:192-206 | A difficulty stored big-endian is read back unchanged |
| Bytes.ByteLengthBounds | z-blockchain/x/utxo/types/equihash.go:229 | A positive number needs exactly as many bytes as its minimal encoding has: it is at least 256 to the power of one less and below 256 to that power |
| Bytes.MinimalBEValue | z-blockchain/x/utxo/types/equihash.go:229 | `big.Int.Bytes` encodes the value big-endian with no leading zero byte |
| Bytes.HexEncode | z-blockchain/x/utxo/keeper/msg_server.go:194 | `hex.EncodeToString` writes two characters per byte |
| Bytes.HexValue | oracle/cysic-hardware-miner.py:266 | A hex character has a value below 16, and a lower-case or digit character is the one that value encodes |
| Bytes.HexRoundTrip | oracle/cysic-hardware-miner.py:401-402 | Decoding the hex text of any bytes gives those bytes |
| Decimal.NatToDecimal | nuchain/x/mining/keeper/msg_server.go:160-163 | `strconv.FormatUint` writes a non-empty string of digits with no leading zero |
| Decimal.DecimalRoundTrip | z-blockchain/x/utxo/keeper/msg_server.go:172-173 | The digits written for a number read back as that number |
| Decimal.NatToDecimalInjective | nuchain/x/mining/keeper/keeper.go:107 | Different numbers are written as different texts |
| Decimal.DecimalHasNo | nuchain/x/mining/keeper/keeper.go:107 | A number's decimal text holds no separator such as '-' or ':' |
| Decimal.IntToDecimal | z-core-wallet/main.go:127 | `%d` writes a non-negative number as its digits and a negative one with a leading '-' |
| Decimal.ParseInt | z-blockchain/x/utxo/keeper/keeper.go:87 | `sdk.NewIntFromString` reads an optional sign and a base-0 magnitude, and yields only values whose magnitude fits in 256 bits |
| Decimal.BigDigit | z-blockchain/x/utxo/keeper/keeper.go:87 | A character's digit value is below 10 exactly for decimal digits, where it is their decimal value, and at most 36 |
| Decimal.ScanRunSpec | z-blockchain/x/utxo/keeper/keeper.go:87 | A digit run with no prefix is read iff it is non-empty, every character is a digit of the base or an underscore, and the underscores stand strictly between digits; its value is the digits read in the base, skipping underscores |
| Decimal.ScanDigitsSpec | z-blockchain/x/utxo/keeper/keeper.go:87 | A digit run is read iff it is non-empty, every character is a digit of the base or an underscore, and the underscores stand between digits (or right after a prefix); its value skips the underscores |
| Decimal.PrefixBase | z-blockchain/x/utxo/keeper/keeper.go:87 | After a leading '0', "b"/"B" selects base 2, "x"/"X" base 16, "o"/"O" base 8 as part of the prefix, and anything else leaves the '0' alone as the octal prefix |
| Decimal.DecimalBaseValue | z-blockchain/x/utxo/keeper/keeper.go:87 | Plain decimal digits read in base 10 give their decimal value |
| Decimal.ScanDecimal | z-blockchain/x/utxo/keeper/keeper.go:101 | The shortest decimal text of a number is read back as that number, despite the prefix rules |
| Decimal.LeadingZeroIsOctal | z-blockchain/x/utxo/keeper/keeper.go:87 | "010" reads as eight |
| Decimal.LeadingZeroRefusesEight | z-blockchain/x/utxo/keeper/keeper.go:87 | "08" is refused |
| Decimal.HexPrefix | z-blockchain/x/utxo/keeper/keeper.go:87 | "-0x10" reads as minus sixteen, and "0x" alone is refused |
| Decimal.UnderscoreBetweenDigits | z-blockchain/x/utxo/keeper/keeper.go:87 | "1_000" reads as a thousand |
| Decimal.MisplacedUnderscores | z-blockchain/x/utxo/keeper/keeper.go:87 | "1__0" and "_1" are refused |
| Decimal.ParseIntRoundTrip | z-blockchain/x/utxo/keeper/keeper.go:101 | Any integer within the 256-bit range, written out in decimal, reads back as itself |
| Decimal.Int64RoundTrip | z-blockchain/x/utxo/abci.go:72-79 | An `int64` or `uint64` written into an event attribute reads back as itself |
| Decimal.ParseInt64 | z-core-wallet/main.go:202 | `strconv.ParseInt(s, 10, 64)` yields only values in the signed 64-bit range |
| Decimal.ParseInt64RoundTrip | z-core-wallet/main.go:202-206 | A written integer is accepted back as itself iff it lies in the signed 64-bit range |
| Decimal.SplitAtLast | z-blockchain/x/utxo/keeper/keeper.go:304 | Two strings joined at a separator absent from the tails are equal only if heads and tails are |
| Decimal.SplitAtFirst | nuchain/x/mining/keeper/keeper.go:107 | Two strings joined at a separator absent from the heads are equal only if heads and tails are |
| Arith.WrapInt64 | nuchain/x/mining/keeper/keeper.go:198 | Conversion to `int64` gives a value in the signed 64-bit range congruent to the input modulo 2^64 |
| Arith.TruncDiv | z-blockchain/x/utxo/keeper/keeper.go:283 | Go's integer division agrees with floor division for a non-negative dividend and positive divisor, and negates it for a negative divisor |

## Left out

- Network and I/O are not modelled. This covers:
  - the miner's websocket and HTTP calls;
  - the RPC broadcast;
  - LayerZero `SendMessage`;
  - the internals of `SubmitRollupBatch`;
  - the wallet's HTTP and websocket handlers (`getWalletInfo`, `getTransactionHistory`, `handleWebSocket`, `broadcastToClients`).

  The model keeps only the decoded request, the reply and the effect log.
- Concurrency is not modelled: asyncio tasks and sleeps, and the bridge's goroutines and select loops. Rounds and loop ticks are modelled one at a time, in sequence. This leaves out:
  - `StartBlockCoordination`, `coordinateBlocks`, `triggerCoordinatedMining`, `generateCysicMiningProof`, `prepareMiningChallenge`, `submitToNuChain` and `submitToZChain`;
  - the miner's `submit_proofs_to_pool`, `initialize_hardware`, `check_gpu_availability` and `start_mining`;
  - the reconnect after a failed websocket, which is a sleep and a recursive call.
- Cryptography and parsing are uninterpreted parameters: SHA-256, ECDSA signing and verification, the Cysic verifiers, bech32, and the JSON and protobuf codecs.
- Floating point and `sdk.Dec` are not modelled. Proportional shares are a parameter, so no conservation of shares is claimed. The miner's `proofs_per_second` and uptime are floats and are left out of `RigMiner.Stats`.
- Logging is left out, as are the event-emitter glue in `events.go`, `keys.go`, `codec.go`, `handler.go` and nuChain's mining `abci.go`. Events are modelled only as emitted or not, with their attributes. Key constants appear as literals.
- The stray statements outside any function at z-blockchain/x/pow/keeper/keeper.go:143-148 do not compile and are not part of this model. `NotifyNuChain` and `SynchronizeWithNuChain` only send messages over LayerZero.
- The bridge's `BridgeToZChain` only sends a message and is not modelled.
- Each of the following only forwards or logs, and is not modelled:
  - the oracle keeper's `processMiningRewardClaim`, which is the `rewardClaim` parameter;
  - `StartCysicMiningPool`;
  - the wallet's `SignMessage`.
- `crypto.Sign` returns two values but the wallet assigns it to one. The wallet therefore does not compile as written, and the model treats the proof as a value of the `prove` parameter. Its error branch in `createTransaction` is unreachable.
- `sdk.NewCoins` drops zero-amount coins. The model records the requested amount.
- The other `sdk.Int` additions, such as reward plus hardware bonus, are unbounded in the model. Their operands are below 2^64, so they cannot reach the 256-bit limit.
- The int64 overflow of `currentHeight - LastProofTime` in the oracle's staleness check is not modelled: heights and times are unbounded integers.
- Python's `bytes.fromhex` skips whitespace, but `Bytes.HexDecode` does not.
- `RigMiner.LoadMiningRigs` states the count it reports and how much the registry grows, not which entries it stores. `RigMiner.LoadRigsFromChain` states that for each chain.
- `RigMiner.RunRounds` states only what a sequence of rounds leaves unchanged and that the proof counter does not decrease. `RigMiner.TriggerProofGeneration` states each round exactly.
- `OracleKeeper.PayAll` states only the key set and the unvisited miners. `OracleKeeper.PayAllPointwise` states the visited ones.
- `MiningGenesis.CreatedNodePassesGenesis` widens `StakedNu` from Go's `uint64` to an unbounded `nat`. The source cannot create such a node: the 21 NU stake does not fit in 64 bits, so `CreateStakingNode` panics (Findings row 3). The lemma is about the corrected `CreateStakingNode`. In the same way, the comparison `node.StakedNu < 21*1e18` at nuchain/x/mining/types/genesis.go:49 has a constant that overflows `uint64`, so it does not compile as written. The model compares against 21·10^18 unbounded.
- `Arith.TruncDiv` states the quotient only for a non-negative dividend, which is the only case the reward code reaches.

## Findings

| source | as written | input that shows it | evidently intended | confidence | as-written member | corrected member |
|---|---|---|---|---|---|---|
| nuchain/x/mining/keeper/keeper.go:197-199 | `sdk.NewInt(1 << uint(halvings))` shifts an `int64` with no 64-halving guard. From the 64th halving the divisor is 0 and `Quo` panics | block height 13 440 000 000 (64 · 210 000 000) | the halving schedule, 0 from the 64th halving on, as the guarded copies pay | not executed | Rewards.UncappedRewardPanics | Rewards.HalvedBase |
| oracle/nuchain-cosmos-module.go:180-182 | the same unguarded `int64` shift in `calculateMinerReward`, so every reward computation panics from the 64th halving | block height 13 440 000 000 | reward 0 from the 64th halving | not executed | OracleKeeper.RewardPanicsAtSixtyFourHalvings | OracleKeeper.HalvedBaseReward |
| nuchain/x/mining/keeper/keeper.go:161 | `stakedAmount.Uint64()` on a stake of at least 21 NU = 2.1·10^19 base units, which exceeds 2^64 and panics. The literal `21 * 1e18` does not fit `int64` either | the placeholder stake that `GetStakedAmount` returns, 21·10^18 | an accepted stake becomes an online node with that stake and voting power 21 | not executed | MiningKeeper.PlaceholderStakeOverflows | MiningKeeper.CreateStakingNode |
