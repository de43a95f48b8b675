/**
 * Specification of the ledger over block values: the balance fold that
 * `checkBalance` computes, the predicate that `chainValidate` decides, and
 * the invariant every ledger keeps.
 */
module ChainSpec {
  import opened Wrappers
  import opened LedgerTypes

  // ---------------------------------------------------------------------
  // Balances.

  /** What one transaction does to the balance of `address`: credit as recipient, debit as sender. */
  function TxDelta(t: Transaction, address: string): (delta: int)
  {
    (if t.toAddress == address then t.amount else 0)
      - (if t.fromAddress == Some(address) then t.amount else 0)
  }

  /** The net effect of a list of transactions on `address`. */
  function TxsDelta(txs: seq<Transaction>, address: string): (delta: int)
  {
    if txs == [] then 0
    else TxsDelta(txs[..|txs| - 1], address) + TxDelta(txs[|txs| - 1], address)
  }

  /** The net effect of every transaction of every block on `address`. */
  function Balance(blocks: seq<BlockData>, address: string): (balance: int)
  {
    if blocks == [] then 0
    else Balance(blocks[..|blocks| - 1], address) + TxsDelta(blocks[|blocks| - 1].transactions, address)
  }

  /** Appending a transaction adds exactly its own effect. */
  lemma TxsDeltaSnoc(txs: seq<Transaction>, t: Transaction, address: string)
    ensures TxsDelta(txs + [t], address) == TxsDelta(txs, address) + TxDelta(t, address)
  {
  }

  /** Appending a block adds exactly the effect of its transactions. */
  lemma BalanceSnoc(blocks: seq<BlockData>, b: BlockData, address: string)
    ensures Balance(blocks + [b], address) == Balance(blocks, address) + TxsDelta(b.transactions, address)
  {
  }

  predicate Mentions(t: Transaction, address: string)
  {
    t.toAddress == address || t.fromAddress == Some(address)
  }

  lemma {:induction false} TxsDeltaConcat(xs: seq<Transaction>, ys: seq<Transaction>, address: string)
    ensures TxsDelta(xs + ys, address) == TxsDelta(xs, address) + TxsDelta(ys, address)
    decreases |ys|
  {
    if ys != [] {
      var zs := xs + ys;
      assert zs[..|zs| - 1] == xs + ys[..|ys| - 1];
      TxsDeltaConcat(xs, ys[..|ys| - 1], address);
    } else {
      assert xs + ys == xs;
    }
  }

  /** The balance is additive over a split of the chain. */
  lemma {:induction false} BalanceConcat(xs: seq<BlockData>, ys: seq<BlockData>, address: string)
    ensures Balance(xs + ys, address) == Balance(xs, address) + Balance(ys, address)
    decreases |ys|
  {
    if ys != [] {
      var zs := xs + ys;
      assert zs[..|zs| - 1] == xs + ys[..|ys| - 1];
      BalanceConcat(xs, ys[..|ys| - 1], address);
    } else {
      assert xs + ys == xs;
    }
  }

  lemma {:induction false} UnmentionedTxsDeltaZero(txs: seq<Transaction>, address: string)
    requires forall j :: 0 <= j < |txs| ==> !Mentions(txs[j], address)
    ensures TxsDelta(txs, address) == 0
  {
    if txs != [] {
      UnmentionedTxsDeltaZero(txs[..|txs| - 1], address);
    }
  }

  /** An address that no transaction on the chain mentions has balance 0. */
  lemma {:induction false} UnmentionedBalanceZero(blocks: seq<BlockData>, address: string)
    requires forall i, j :: 0 <= i < |blocks| && 0 <= j < |blocks[i].transactions| ==>
               !Mentions(blocks[i].transactions[j], address)
    ensures Balance(blocks, address) == 0
  {
    if blocks != [] {
      var last := blocks[|blocks| - 1];
      assert forall j :: 0 <= j < |last.transactions| ==> !Mentions(last.transactions[j], address) by {
        forall j | 0 <= j < |last.transactions|
          ensures !Mentions(last.transactions[j], address)
        {
          assert last.transactions[j] == blocks[|blocks| - 1].transactions[j];
        }
      }
      UnmentionedTxsDeltaZero(last.transactions, address);
      UnmentionedBalanceZero(blocks[..|blocks| - 1], address);
    }
  }

  // ---------------------------------------------------------------------
  // Validation.

  /** Every block from index 1 on stores the hash of its own fields and the hash of its predecessor. */
  predicate ChainValid(blocks: seq<BlockData>, digest: HashFn)
  {
    forall i :: 1 <= i < |blocks| ==>
      blocks[i].hash == HashOf(blocks[i], digest) && blocks[i].previousHash == blocks[i - 1].hash
  }

  /** The hash-link invariant: each block names its predecessor's stored hash. */
  predicate Linked(blocks: seq<BlockData>)
  {
    forall i :: 1 <= i < |blocks| ==> blocks[i].previousHash == blocks[i - 1].hash
  }

  /** The hash a block's constructor stores: computed while the nonce is still unset. */
  function ConstructorHash(d: BlockData, digest: HashFn): (h: string)
  {
    HashOf(d.(nonce := None), digest)
  }

  /**
   * A block's stored hash is the hash of its fields, or else its mining loop
   * never ran: the nonce is still 0 and the hash is the one its constructor
   * computed before the nonce was set.
   */
  predicate HashSettled(d: BlockData, digest: HashFn)
  {
    d.hash == HashOf(d, digest) || (d.nonce == Some(0) && d.hash == ConstructorHash(d, digest))
  }

  /** What holds of the blocks of every ledger, whatever calls were made on it. */
  predicate LedgerInvariant(blocks: seq<BlockData>, digest: HashFn, difficulty: nat)
  {
    && |blocks| >= 1
    && blocks[0].previousHash == ""
    && blocks[0].transactions == [GenesisTransaction]
    && Linked(blocks)
    && (forall i :: 0 <= i < |blocks| ==> blocks[i].nonce.Some? && HashSettled(blocks[i], digest))
    && (forall i :: 1 <= i < |blocks| ==> MeetsDifficulty(blocks[i].hash, difficulty))
  }

  /** Appending a mined block that links to the last one keeps the invariant. */
  lemma InvariantAppend(blocks: seq<BlockData>, b: BlockData, digest: HashFn, difficulty: nat)
    requires LedgerInvariant(blocks, digest, difficulty)
    requires b.previousHash == blocks[|blocks| - 1].hash
    requires b.nonce.Some? && HashSettled(b, digest) && MeetsDifficulty(b.hash, difficulty)
    ensures LedgerInvariant(blocks + [b], digest, difficulty)
  {
    var bs := blocks + [b];
    assert forall i :: 0 <= i < |blocks| ==> bs[i] == blocks[i];
    assert bs[|blocks|] == b;
    assert Linked(bs) by {
      forall i | 1 <= i < |bs|
        ensures bs[i].previousHash == bs[i - 1].hash
      {
        if i < |blocks| {
          assert bs[i - 1] == blocks[i - 1];
        }
      }
    }
  }

  /**
   * On a ledger, validation can only fail on a hash mismatch, and only at a
   * block whose mining loop never ran: its nonce is 0, its stored hash is
   * the constructor's and already met the difficulty.
   */
  lemma ValidationFailsOnlyOnUnminedBlocks(blocks: seq<BlockData>, digest: HashFn, difficulty: nat)
    requires LedgerInvariant(blocks, digest, difficulty)
    ensures ChainValid(blocks, digest) <==>
              forall i :: 1 <= i < |blocks| ==> blocks[i].hash == HashOf(blocks[i], digest)
    ensures forall i :: 1 <= i < |blocks| && blocks[i].hash != HashOf(blocks[i], digest) ==>
              && blocks[i].nonce == Some(0)
              && blocks[i].hash == ConstructorHash(blocks[i], digest)
              && MeetsDifficulty(ConstructorHash(blocks[i], digest), difficulty)
  {
  }

  /** Validity of a longer chain is validity of the shorter one plus the checks on the new block. */
  lemma ChainValidAppend(blocks: seq<BlockData>, b: BlockData, digest: HashFn)
    requires |blocks| >= 1
    ensures ChainValid(blocks + [b], digest) <==>
              && ChainValid(blocks, digest)
              && b.hash == HashOf(b, digest)
              && b.previousHash == blocks[|blocks| - 1].hash
  {
    var bs := blocks + [b];
    assert forall i :: 0 <= i < |blocks| ==> bs[i] == blocks[i];
    assert bs[|blocks|] == b;
  }

  /** The genesis block is never examined: only its stored hash matters, through the link from block 1. */
  lemma GenesisNeverExamined(blocks: seq<BlockData>, g: BlockData, digest: HashFn)
    requires |blocks| >= 1 && g.hash == blocks[0].hash
    ensures ChainValid(blocks[0 := g], digest) <==> ChainValid(blocks, digest)
  {
    var bs := blocks[0 := g];
    assert bs[0].hash == blocks[0].hash;
    assert forall i :: 1 <= i < |blocks| ==> bs[i] == blocks[i];
  }

  /**
   * Replacing the transactions of a block (index >= 1) of a valid chain,
   * without recomputing its hash, is detected exactly when the digest of the
   * altered fields differs from the stored hash.
   */
  lemma TamperDetectedIffDigestDiffers(blocks: seq<BlockData>, i: nat, txs: seq<Transaction>, digest: HashFn)
    requires ChainValid(blocks, digest)
    requires 1 <= i < |blocks|
    ensures ChainValid(blocks[i := blocks[i].(transactions := txs)], digest) <==>
              HashOf(blocks[i].(transactions := txs), digest) == blocks[i].hash
  {
    var t := blocks[i].(transactions := txs);
    var bs := blocks[i := t];
    if HashOf(t, digest) == blocks[i].hash {
      forall k | 1 <= k < |bs|
        ensures bs[k].hash == HashOf(bs[k], digest) && bs[k].previousHash == bs[k - 1].hash
      {
        if k != i && k - 1 != i {
          assert bs[k] == blocks[k] && bs[k - 1] == blocks[k - 1];
        }
      }
    } else {
      assert !(bs[i].hash == HashOf(bs[i], digest));
    }
  }

  /** Overwriting the link of a block (index >= 1) with anything but its predecessor's hash is detected. */
  lemma LinkTamperDetected(blocks: seq<BlockData>, i: nat, s: string, digest: HashFn)
    requires 1 <= i < |blocks| && s != blocks[i - 1].hash
    ensures !ChainValid(blocks[i := blocks[i].(previousHash := s)], digest)
  {
    var bs := blocks[i := blocks[i].(previousHash := s)];
    assert bs[i].previousHash != bs[i - 1].hash;
  }
}
