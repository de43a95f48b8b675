/**
 * The ledger: the chain of blocks and the pool of pending transactions,
 * which its methods update in place.
 */
module Ledger {
  import opened Wrappers
  import opened LedgerTypes
  import opened ChainSpec
  import opened Blocks

  class Blockchain {
    /** The hash function every block of this ledger hashes with. */
    const digest: HashFn
    var chain: seq<Block>
    /** Leading zero characters a mined block's hash must have. */
    const difficulty: nat := 4
    var pendingTransactions: seq<Transaction>
    /** Amount of the reward transaction queued for the miner after each mined block. */
    const miningReward: int := 100

    /** The records of the blocks, in chain order. */
    ghost function ChainData(): (data: seq<BlockData>)
      reads this, chain
    {
      var blocks := chain;
      seq(|blocks|, i requires 0 <= i < |blocks| reads blocks => blocks[i].blockData)
    }

    /** Every block hashes with the ledger's hash function. */
    ghost predicate SharedDigest()
      reads this, chain
    {
      forall i :: 0 <= i < |chain| ==> chain[i].digest == digest
    }

    /** Every block hashes with the ledger's function, and the block records keep the ledger invariant. */
    ghost predicate Valid()
      reads this, chain
    {
      SharedDigest() && LedgerInvariant(ChainData(), digest, difficulty)
    }

    /** A ledger holding only its genesis block, with an empty pending pool. */
    constructor (digest: HashFn, now: int)
      ensures Valid()
      ensures this.digest == digest
      ensures |chain| == 1 && fresh(chain[0])
      ensures chain[0].blockData.previousHash == ""
      ensures chain[0].blockData.transactions == [Transaction("", None, 0)]
      ensures chain[0].blockData.timestamp == now
      ensures chain[0].blockData.nonce == Some(0)
      ensures chain[0].blockData.hash == ConstructorHash(chain[0].blockData, digest)
      ensures pendingTransactions == []
      ensures difficulty == 4 && miningReward == 100
    {
      this.digest := digest;
      chain := [];
      pendingTransactions := [];
      new;
      var genesis := InitialBlock(now);
      chain := [genesis];
      assert ChainData() == [genesis.blockData];
    }

    /** The genesis block: no predecessor, one placeholder transaction, hashed but never mined. */
    method InitialBlock(now: int) returns (b: Block)
      ensures fresh(b) && b.digest == digest
      ensures b.blockData.previousHash == ""
      ensures b.blockData.transactions == [GenesisTransaction]
      ensures b.blockData.timestamp == now
      ensures b.blockData.nonce == Some(0)
      ensures b.blockData.hash == ConstructorHash(b.blockData, digest)
    {
      b := new Block(digest, now, [GenesisTransaction], "");
    }

    /** The block at the head of the chain; the chain is never empty. */
    function RecentBlock(): (b: Block)
      requires Valid()
      reads this, chain
      ensures b == chain[|chain| - 1] && b.blockData == ChainData()[|chain| - 1]
    {
      chain[|chain| - 1]
    }

    /** Queues a transaction, unchecked, at the end of the pending pool. */
    method CreateTransaction(transaction: Transaction)
      requires Valid()
      modifies this
      ensures Valid()
      ensures pendingTransactions == old(pendingTransactions) + [transaction]
      ensures chain == old(chain) && ChainData() == old(ChainData())
    {
      pendingTransactions := pendingTransactions + [transaction];
      assert ChainData() == old(ChainData());
    }

    /**
     * Packs the whole pending pool into a new block linked to the head,
     * mines it, appends it and queues the miner's reward as the only pending
     * transaction. `mined` is false only when the nonce search used up its
     * `fuel`; the ledger is then as it was.
     */
    method MinePendingTransactions(minerAddress: string, now: int, fuel: nat) returns (mined: bool)
      requires Valid()
      modifies this
      ensures Valid()
      ensures mined ==>
                && |chain| == old(|chain|) + 1
                && chain[..old(|chain|)] == old(chain)
                && ChainData()[..old(|chain|)] == old(ChainData())
      ensures mined ==>
                var b := ChainData()[|chain| - 1];
                && b.previousHash == old(RecentBlock().blockData.hash)
                && b.transactions == old(pendingTransactions)
                && b.timestamp == now
                && MeetsDifficulty(b.hash, difficulty)
      ensures mined ==> fresh(chain[|chain| - 1])
      ensures mined ==> pendingTransactions == [Transaction(minerAddress, None, miningReward)]
      // The constructor's hash, taken with the nonce unset, already meets the
      // target: the block is appended unmined, with that hash and nonce 0.
      ensures var h := digest(now, old(pendingTransactions), old(RecentBlock().blockData.hash), "");
              MeetsDifficulty(h, difficulty) ==>
                && mined
                && ChainData()[|chain| - 1].nonce == Some(0)
                && ChainData()[|chain| - 1].hash == h
      ensures !mined ==>
                && chain == old(chain)
                && ChainData() == old(ChainData())
                && pendingTransactions == old(pendingTransactions)
    {
      var block := new Block(digest, now, pendingTransactions, RecentBlock().blockData.hash);
      mined := block.MineBlock(difficulty, fuel);
      if mined {
        ghost var before := ChainData();
        chain := chain + [block];
        pendingTransactions := [Transaction(minerAddress, None, miningReward)];
        assert ChainData() == before + [block.blockData];
        InvariantAppend(before, block.blockData, digest, difficulty);
      }
    }

    /** The signed total of what the chain's transactions paid to and from `address`; the pending pool is not counted. */
    method CheckBalance(address: string) returns (balance: int)
      ensures balance == Balance(ChainData(), address)
    {
      ghost var blocks := ChainData();
      balance := 0;
      for i := 0 to |chain|
        invariant balance == Balance(blocks[..i], address)
      {
        var transactions := chain[i].blockData.transactions;
        for j := 0 to |transactions|
          invariant balance == Balance(blocks[..i], address) + TxsDelta(transactions[..j], address)
        {
          var transaction := transactions[j];
          if transaction.fromAddress == Some(address) {
            balance := balance - transaction.amount;
          }
          if transaction.toAddress == address {
            balance := balance + transaction.amount;
          }
          assert transactions[..j + 1][..j] == transactions[..j];
        }
        assert transactions[..|transactions|] == transactions;
        assert blocks[..i + 1][..i] == blocks[..i];
      }
      assert blocks[..|chain|] == blocks;
    }

    /**
     * Checks, from index 1 on, that each block's stored hash is the hash of
     * its fields and that it links to its predecessor; stops at the first
     * failure. The genesis block is never examined. Any chain is accepted,
     * including one whose blocks were altered after they were appended.
     */
    method ChainValidate() returns (valid: bool)
      requires SharedDigest()
      ensures valid == ChainValid(ChainData(), digest)
    {
      ghost var blocks := ChainData();
      var i := 1;
      while i < |chain|
        invariant 1 <= i
        invariant forall k :: 1 <= k < i && k < |chain| ==>
                    blocks[k].hash == HashOf(blocks[k], digest) && blocks[k].previousHash == blocks[k - 1].hash
      {
        var currentBlock := chain[i];
        var previousBlock := chain[i - 1];
        assert blocks[i] == currentBlock.blockData && blocks[i - 1] == previousBlock.blockData;
        if currentBlock.blockData.hash != currentBlock.CalculateHash() {
          return false;
        }
        if currentBlock.blockData.previousHash != previousBlock.blockData.hash {
          return false;
        }
        i := i + 1;
      }
      return true;
    }
  }
}
