# dru-coin ledger, modelled in Dafny

dru-coin is a small proof-of-work ledger written in TypeScript (`src/main.ts`).
It has two classes:

- A `Block` owns one `BlockData` record: a timestamp, a list of transactions, the previous block's hash, its own stored hash and a nonce.
  `calculateHash` hashes the timestamp, transactions, previous hash and nonce.
  `mineBlock` raises the nonce and rehashes until the stored hash starts with `difficulty` `'0'` characters.
- A `Blockchain` owns the chain of blocks and a pool of pending transactions. Its difficulty is 4 and its mining reward is 100.
  - It starts with an unmined genesis block.
  - It queues transactions.
  - It mines the whole pool into a new block linked to the head, then queues a reward transaction for the miner.
  - It computes balances as a signed sum over the chain.
  - It validates the chain pairwise from index 1.

The model follows the code's own form.

- `Block` and `Blockchain` are Dafny classes whose methods update their fields in place.
- The mining loop, the balance loops and the validation loop are `while`/`for` loops with invariants.
- Each loop is proved against a specification on values (module `ChainSpec`):
  - `Balance` is the fold that `CheckBalance` computes;
  - `ChainValid` is the predicate that `ChainValidate` decides;
  - `LedgerInvariant` holds of the block records of every ledger.
- `Blockchain.Valid()` ties the objects to that invariant. The constructor and every mutating method keep it. So the hash-link invariant holds after any sequence of calls.

The hash function is a parameter, `HashFn`. It maps timestamp, transactions, previous hash and nonce text to a string. It stands for SHA-256 over the joined, JSON-serialised fields. Nothing is assumed about it: it is not assumed to be injective or collision-free. The clock becomes a `now` parameter.

### The constructor's hash quirk

The `Block` constructor stores the hash *before* it sets `nonce = 0` (`src/main.ts:25-26`). At that moment the nonce is unset, and in the joined hash input it contributes the empty string. The model keeps this:

- `BlockData.nonce` is an `Option<nat>`.
- `NonceText(None) == ""`.
- `NonceTextInjective` shows that the unset nonce's text differs from every set nonce's text. So the stored hash is taken over a different input than `calculateHash()` uses once the nonce is 0.

`mineBlock` may stop without running its loop body. This happens when the stored hash already meets the difficulty. The block is then appended with the stale hash.

- `ValidationFailsOnlyOnUnminedBlocks` shows that this is the *only* way validation can fail on a ledger.
- `Driver.UnminedBlockFailsValidation` exhibits a hash function for which a ledger built only by its own operations is then rejected by `chainValidate`.

### Consequences of the code as written

- The `Block` constructor hashes before it sets the nonce, so a block's first stored hash is taken with the nonce unset.
- The mining reward reaches balances only after the next mined block, because `minePendingTransactions` only queues it in the pending pool, which `checkBalance` does not count. In the demonstration script the miner's two printed balances are therefore 0 and then 100 (`Driver.Demonstration`).
- A block appended unmined keeps its stale constructor hash, and the ledger then rejects its own chain (`Driver.UnminedBlockFailsValidation`).

## Model

| member | source | states |
|---|---|---|
| `LedgerTypes.NatTextRoundTrip` | src/main.ts:32 | The decimal text that a set nonce contributes to the hash input reads back as that nonce, so different nonces give different hash inputs. |
| `LedgerTypes.NonceTextInjective` | src/main.ts:25-26 | The nonce texts of two nonce states are equal iff the states are equal. The unset nonce (text `""`) that the constructor hashes with therefore never shares a hash input with the nonce 0 that is set right after. |
| `LedgerTypes.Prefix` | src/main.ts:39 | `substring(0, n)` clamps its end: the result has length `min(n, |s|)` and agrees with `s` position by position. |
| `LedgerTypes.Zeros` | src/main.ts:39 | `Array(n + 1).join('0')` is exactly `n` characters, all `'0'`. |
| `LedgerTypes.PrefixIsZerosIff` | src/main.ts:39 | The loop guard, a clamped prefix compared with `difficulty` zeros, is false exactly when the hash has at least `difficulty` characters and they are all `'0'`. |
| `Blocks.Block.constructor` | src/main.ts:23-27 | Stores timestamp, transactions and previous hash. The nonce ends at 0, but the stored hash is the hash with the nonce unset, whose text is `""` instead of `"0"`. |
| `Blocks.Block.CalculateHash` | src/main.ts:30-33 | The hash of the block's current timestamp, transactions, previous hash and nonce text. This is the same `HashOf` that the validity predicate and the ledger invariant use. |
| `Blocks.Block.MineBlock` | src/main.ts:36-45 | Changes only nonce and hash. It returns having mined iff the hash meets the difficulty. Each iteration adds 1 to the nonce. With no iteration the hash is untouched, and with difficulty 0 nothing changes. After at least one iteration the hash is the hash of the fields. The stopping nonce is the first one that meets the target. |
| `Ledger.Blockchain.constructor` | src/main.ts:50-57 | A fresh ledger keeps the invariant. It has exactly one block, with previous hash `""`, the single transaction `{toAddress: "", amount: 0}` without sender, and the given timestamp. That block is never mined: its nonce is 0 and its stored hash is the constructor's hash, taken with the nonce unset. The pending pool is empty, difficulty is 4 and the mining reward is 100. |
| `Ledger.Blockchain.InitialBlock` | src/main.ts:60-71 | The genesis block is fresh, has previous hash `""` and the one placeholder transaction, and has nonce 0. It is never mined, so its hash is the constructor's hash with the nonce unset. |
| `Ledger.Blockchain.RecentBlock` | src/main.ts:73-75 | The last block of the chain. The invariant makes the chain non-empty, so the read is always defined. |
| `Ledger.Blockchain.MinePendingTransactions` | src/main.ts:78-96 | The invariant is kept. The chain grows by one block and earlier blocks and their records are unchanged. The new block is fresh. It links to the old head's hash, holds exactly the old pending pool, carries the given timestamp and meets the difficulty. The pool becomes the single reward transaction `{toAddress: miner, amount: 100}` without sender. If the constructor's hash already meets the target, the block is appended unmined (nonce 0, that hash). |
| `Ledger.Blockchain.CreateTransaction` | src/main.ts:99-101 | The transaction is appended at the end of the pending pool. The chain and its block records are unchanged, and the invariant is kept. |
| `Ledger.Blockchain.CheckBalance` | src/main.ts:104-124 | The result equals `Balance` over the chain's block records: credits as recipient minus debits as sender, over every transaction of every block. Pending transactions are not counted. |
| `Ledger.Blockchain.ChainValidate` | src/main.ts:127-146 | For any chain, including one altered after its blocks were appended, the result is true iff every block from index 1 stores the hash of its own fields and the stored hash of its predecessor. Block 0 is never examined, and no state changes. The only precondition is that every block hashes with the ledger's hash function. |
| `ChainSpec.TxsDeltaConcat` | src/main.ts:110-120 | The net effect of a transaction list is additive over any split of the list. |
| `ChainSpec.BalanceConcat` | src/main.ts:104-124 | The balance is additive over any split of the chain. |
| `ChainSpec.UnmentionedTxsDeltaZero` | src/main.ts:110-120 | A transaction list that never names an address has no effect on it. |
| `ChainSpec.UnmentionedBalanceZero` | src/main.ts:104-124 | An address that no transaction on the chain names has balance 0. |
| `ChainSpec.InvariantAppend` | src/main.ts:79-88 | Appending a block keeps the ledger invariant when the block links to the head, has a set nonce, meets the difficulty, and has either a current hash or the constructor's hash with nonce 0. |
| `ChainSpec.ValidationFailsOnlyOnUnminedBlocks` | src/main.ts:127-146 | On a ledger the links always hold, so validation fails only on a hash mismatch. Such a block has nonce 0 and holds its constructor's hash, which already met the difficulty. |
| `ChainSpec.ChainValidAppend` | src/main.ts:128-143 | A chain extended by one block is valid iff the shorter chain is valid, the new block's hash is current, and the new block links to the old last block. |
| `ChainSpec.GenesisNeverExamined` | src/main.ts:128 | Replacing block 0 by any block with the same stored hash does not change validity. |
| `ChainSpec.TamperDetectedIffDigestDiffers` | src/main.ts:132-136 | In a valid chain, replacing the transactions of a block from index 1 on, without rehashing, is detected iff the hash of the altered fields differs from the stored hash. |
| `ChainSpec.LinkTamperDetected` | src/main.ts:138-142 | Overwriting a block's previous hash (index 1 or later) with anything but its predecessor's hash makes the chain invalid. |
| `Driver.Demonstration` | src/main.ts:150-172 | The demonstration script: the miner's first printed balance is 0, and the second is 100 once both mining rounds complete, for every hash function and clock reading. |
| `Driver.MineThenCheckBalance` | src/main.ts:165-167 | One round of the script, a mining call followed by `checkBalance` for the miner. The invariant is kept, and the result is the miner's balance over the new chain. A completed round adds exactly the effect of the pool it consumed to the balance, and leaves only the miner's 100 reward pending. |
| `Driver.DemonstrationBalances` | src/main.ts:150-172 | The miner named in the script is credited nothing by the genesis block or by the two opposite transfers of 20, and is credited 100 by its own reward transaction. |
| `Driver.TamperedTransactionsDetection` | src/main.ts:132-136 | Mines block 1 over the empty pool (its record as mined is returned: no transactions, the given timestamp, a hash with four leading zeros). Its transactions are then replaced without rehashing. `chainValidate` returns true iff the hash of the altered record equals the stored hash, for every hash function. |
| `Driver.TamperedLinkDetection` | src/main.ts:138-142 | After block 1's previous hash is overwritten with a string other than the genesis hash, `chainValidate` returns false, for every hash function. |
| `Driver.UnminedBlockFailsValidation` | src/main.ts:23-27 | There is a hash function under which the ledger appends a block unmined after one mining call, and `chainValidate` then returns false. |

## Left out

- SHA-256, `JSON.stringify` and `join('')` are not modelled. The hash is the parameter `HashFn` over the four fields and the nonce text. No collision resistance is assumed, so tamper detection is proved only relative to the hash (`TamperDetectedIffDigestDiffers`).
- `Date.now()` is not modelled. Timestamps are method parameters.
- `console.log` output is left out. It carries no behaviour.
- Blocks.Block.MineBlock: the source loop has no bound and need not terminate. The model gives it a `fuel` bound on iterations, and `mined == false` means the fuel ran out. Only partial correctness is stated: what holds when the search succeeds.
- Ledger.Blockchain.MinePendingTransactions: an outcome with `mined == false` stands for a call that has not returned yet. The ledger is then unchanged, because the source appends only after mining.
- JavaScript `number` semantics are not modelled. Amounts and balances are unbounded integers, with no floating-point rounding. The nonce is a natural number with no 2^53 limit.
- Reference aliasing is not modelled. A new block's transaction array is the pending-pool array itself until the pool is reassigned. Transaction objects stay mutable by the caller after `createTransaction`. In the model transactions are values.
- Block fields are public, and the model lets a caller overwrite a block's record from outside the class (`Driver.TamperedTransactionsDetection`, `Driver.TamperedLinkDetection`). `ChainValidate` and `CheckBalance` accept such a ledger, since they have no precondition on the records.
- Ledger.Blockchain.MinePendingTransactions: requires `Valid()`, as do `RecentBlock` and `CreateTransaction`. Mining or queueing on a ledger whose blocks were altered after they were appended is therefore not modelled, although the source allows it (`src/main.ts:73-101`).
- The hash sees transactions as values. The source's `JSON.stringify` (`src/main.ts:32`) also depends on the order of a transaction's properties and on any extra properties. A replacement with equal values and reordered keys changes the source's hash input, but in the model it is no change at all (`TamperDetectedIffDigestDiffers`).
- `difficulty` and `miningReward` are never reassigned in the source, so they are constants here.
- The stored `hash` before its first assignment (JavaScript `undefined`) is the placeholder `""`. It is overwritten inside the constructor and never observed.
