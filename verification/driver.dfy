/**
 * Call sequences on a ledger: the demonstration script's, and one that
 * exhibits a chain the ledger itself builds but then refuses to validate.
 */
module Driver {
  import opened Wrappers
  import opened LedgerTypes
  import opened ChainSpec
  import opened Ledger

  /**
   * The demonstration script: two opposite transfers of 20, then two mining
   * rounds by the same miner. Its reward reaches the chain only with the
   * next mined block, so the first balance is 0 and the second 100, whatever
   * the hash function and the clock read.
   */
  method Demonstration(digest: HashFn, t0: int, t1: int, t2: int, fuel: nat)
    returns (mined1: bool, mined2: bool, first: int, second: int)
    ensures mined1 ==> first == 0
    ensures mined1 && mined2 ==> second == 100
  {
    mined2, second := false, 0;
    var druCoin := new Blockchain(digest, t0);
    ghost var genesis := druCoin.ChainData()[0];
    assert druCoin.ChainData() == [genesis];
    druCoin.CreateTransaction(Transaction("address1", Some("address2"), 20));
    druCoin.CreateTransaction(Transaction("address2", Some("address1"), 20));
    DemonstrationBalances(genesis, "jhon-andrew");
    mined1, first := MineThenCheckBalance(druCoin, "jhon-andrew", t1, fuel);
    if !mined1 {
      // The script would still be mining; nothing after this point happens.
      return;
    }
    mined2, second := MineThenCheckBalance(druCoin, "jhon-andrew", t2, fuel);
  }

  /**
   * One round of the demonstration: mine the pending pool, then ask for the
   * miner's balance. A completed round adds exactly the effect of the pool
   * it consumed.
   */
  method MineThenCheckBalance(ledger: Blockchain, miner: string, now: int, fuel: nat)
    returns (mined: bool, balance: int)
    requires ledger.Valid()
    modifies ledger
    ensures ledger.Valid()
    ensures balance == Balance(ledger.ChainData(), miner)
    ensures mined ==>
              && balance == Balance(old(ledger.ChainData()), miner) + TxsDelta(old(ledger.pendingTransactions), miner)
              && ledger.pendingTransactions == [Transaction(miner, None, 100)]
  {
    ghost var before := ledger.ChainData();
    mined := ledger.MinePendingTransactions(miner, now, fuel);
    balance := ledger.CheckBalance(miner);
    if mined {
      ghost var after := ledger.ChainData();
      assert after == before + [after[|after| - 1]];
      BalanceSnoc(before, after[|after| - 1], miner);
    }
  }

  /** The balances the demonstration's miner sees: nothing from the genesis block or the two transfers, 100 from its reward. */
  lemma DemonstrationBalances(genesis: BlockData, miner: string)
    requires genesis.transactions == [GenesisTransaction]
    requires miner != "" && miner != "address1" && miner != "address2"
    ensures Balance([genesis], miner) == 0
    ensures TxsDelta([Transaction("address1", Some("address2"), 20), Transaction("address2", Some("address1"), 20)], miner) == 0
    ensures TxsDelta([Transaction(miner, None, 100)], miner) == 100
  {
    var transfer1 := Transaction("address1", Some("address2"), 20);
    var transfer2 := Transaction("address2", Some("address1"), 20);
    BalanceSnoc([], genesis, miner);
    TxsDeltaSnoc([], GenesisTransaction, miner);
    TxsDeltaSnoc([], transfer1, miner);
    TxsDeltaSnoc([transfer1], transfer2, miner);
    TxsDeltaSnoc([], Transaction(miner, None, 100), miner);
    assert [] + [genesis] == [genesis];
    assert [] + [GenesisTransaction] == genesis.transactions;
    assert [] + [transfer1] + [transfer2] == [transfer1, transfer2];
    assert [] + [Transaction(miner, None, 100)] == [Transaction(miner, None, 100)];
  }

  /** A hash function whose output meets difficulty 4 exactly when the nonce is unset. */
  function StaleFriendlyDigest(timestamp: int, transactions: seq<Transaction>, previousHash: string, nonceText: string): (h: string)
  {
    if nonceText == "" then "0000" else "ffff"
  }

  /**
   * With a hash function under which the constructor's hash (taken before
   * the nonce is set) already meets the difficulty, the mining loop never
   * runs, the block is appended with that hash, and validation then rejects
   * the chain the ledger itself built.
   */
  method UnminedBlockFailsValidation(fuel: nat) returns (mined: bool, valid: bool)
    ensures mined && !valid
  {
    var ledger := new Blockchain(StaleFriendlyDigest, 0);
    mined := ledger.MinePendingTransactions("miner", 1, fuel);
    valid := ledger.ChainValidate();
    ghost var blocks := ledger.ChainData();
    assert HashOf(blocks[1], StaleFriendlyDigest) == "ffff";
  }

  /**
   * Replaces the transactions of block 1 after it was appended, as any
   * holder of the block can, without rehashing it. `before` is block 1's
   * record as mined. Validation then accepts the chain exactly when the
   * hash of the altered fields equals the stored hash.
   */
  method TamperedTransactionsDetection(digest: HashFn, t0: int, t1: int, fuel: nat, forged: seq<Transaction>)
    returns (mined: bool, before: BlockData, valid: bool)
    ensures mined ==> before.transactions == [] && before.timestamp == t1 && MeetsDifficulty(before.hash, 4)
    ensures mined ==> (valid <==> HashOf(before.(transactions := forged), digest) == before.hash)
  {
    before, valid := BlockData(0, [], "", "", None), false;
    var ledger := new Blockchain(digest, t0);
    mined := ledger.MinePendingTransactions("miner", t1, fuel);
    if !mined {
      return;
    }
    ghost var appended := ledger.ChainData();
    assert |appended| == 2 && appended[1].previousHash == appended[0].hash;
    var block := ledger.chain[1];
    before := block.blockData;
    block.blockData := block.blockData.(transactions := forged);
    valid := ledger.ChainValidate();
    ghost var blocks := ledger.ChainData();
    assert blocks[0] == appended[0] && blocks[1] == appended[1].(transactions := forged);
  }

  /**
   * Overwrites the previous hash of block 1 with a string that differs from
   * the genesis block's hash. Validation then rejects the chain, whatever
   * the hash function.
   */
  method TamperedLinkDetection(digest: HashFn, t0: int, t1: int, fuel: nat)
    returns (mined: bool, valid: bool)
    ensures mined ==> !valid
  {
    valid := false;
    var ledger := new Blockchain(digest, t0);
    mined := ledger.MinePendingTransactions("miner", t1, fuel);
    if !mined {
      return;
    }
    var genesis := ledger.chain[0];
    var block := ledger.chain[1];
    block.blockData := block.blockData.(previousHash := genesis.blockData.hash + "!");
    valid := ledger.ChainValidate();
    ghost var blocks := ledger.ChainData();
    assert blocks[1].previousHash != blocks[0].hash by {
      assert |blocks[1].previousHash| == |blocks[0].hash| + 1;
    }
  }
}
