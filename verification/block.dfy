/**
 * A block: one `BlockData` record that its methods update in place, the
 * hash over its fields, and the proof-of-work search.
 */
module Blocks {
  import opened Wrappers
  import opened LedgerTypes

  class Block {
    /** The hash function this block hashes its fields with. */
    const digest: HashFn
    var blockData: BlockData

    /**
     * Stores the three inputs, then hashes them while the nonce is still
     * unset, and only then sets the nonce to 0. The stored hash is therefore
     * taken over a different input than `CalculateHash` now uses.
     */
    constructor (digest: HashFn, timestamp: int, transactions: seq<Transaction>, previousHash: string)
      ensures this.digest == digest
      ensures blockData.timestamp == timestamp
      ensures blockData.transactions == transactions
      ensures blockData.previousHash == previousHash
      ensures blockData.nonce == Some(0)
      ensures blockData.hash == HashOf(blockData.(nonce := None), digest)
      ensures NonceText(blockData.nonce) == "0"
    {
      this.digest := digest;
      var data := BlockData(timestamp, transactions, previousHash, "", None);
      data := data.(hash := HashOf(data, digest));
      blockData := data.(nonce := Some(0));
      assert NatText(0) == "0";
    }

    /** The hash of the block's current timestamp, transactions, previous hash and nonce. */
    function CalculateHash(): (h: string)
      reads this
      ensures h == HashOf(blockData, digest)
    {
      digest(blockData.timestamp, blockData.transactions, blockData.previousHash, NonceText(blockData.nonce))
    }

    /**
     * The nonce search: raise the nonce by one and rehash until the stored
     * hash meets `difficulty`. The search has no bound, so the model gives it
     * `fuel` iterations; `mined` is false only when the fuel ran out first.
     */
    method MineBlock(difficulty: nat, fuel: nat) returns (mined: bool)
      requires blockData.nonce.Some?
      modifies this
      // Only the nonce and the hash change.
      ensures blockData.timestamp == old(blockData.timestamp)
      ensures blockData.transactions == old(blockData.transactions)
      ensures blockData.previousHash == old(blockData.previousHash)
      ensures blockData.nonce.Some?
      ensures old(blockData.nonce.value) <= blockData.nonce.value <= old(blockData.nonce.value) + fuel
      // The exit condition, and what it means when the search gave up.
      ensures mined <==> MeetsDifficulty(blockData.hash, difficulty)
      ensures !mined ==> blockData.nonce.value == old(blockData.nonce.value) + fuel
      // No iteration: nothing changed.
      ensures blockData.nonce == old(blockData.nonce) ==> blockData.hash == old(blockData.hash)
      ensures difficulty == 0 ==> mined && blockData == old(blockData)
      // At least one iteration: the stored hash is the hash of the fields,
      // and no hash tried before the last one met the difficulty.
      ensures blockData.nonce != old(blockData.nonce) ==>
                && blockData.hash == HashOf(blockData, digest)
                && !MeetsDifficulty(old(blockData.hash), difficulty)
                && forall n :: old(blockData.nonce.value) < n < blockData.nonce.value ==>
                     !MeetsDifficulty(HashOf(old(blockData).(nonce := Some(n)), digest), difficulty)
    {
      ghost var base := blockData;
      ghost var start := blockData.nonce.value;
      var tries := 0;
      while Prefix(blockData.hash, difficulty) != Zeros(difficulty) && tries < fuel
        invariant 0 <= tries <= fuel
        invariant blockData.timestamp == old(blockData.timestamp)
        invariant blockData.transactions == old(blockData.transactions)
        invariant blockData.previousHash == old(blockData.previousHash)
        invariant blockData.nonce == Some(start + tries)
        invariant tries == 0 ==> blockData.hash == old(blockData.hash)
        invariant tries > 0 ==>
                    && blockData.hash == HashOf(blockData, digest)
                    && !MeetsDifficulty(old(blockData.hash), difficulty)
                    && forall n :: start < n < start + tries ==>
                         !MeetsDifficulty(HashOf(base.(nonce := Some(n)), digest), difficulty)
      {
        PrefixIsZerosIff(blockData.hash, difficulty);
        assert tries > 0 ==> blockData.hash == HashOf(base.(nonce := Some(start + tries)), digest);
        blockData := blockData.(nonce := Some(blockData.nonce.value + 1));
        blockData := blockData.(hash := CalculateHash());
        tries := tries + 1;
      }
      PrefixIsZerosIff(blockData.hash, difficulty);
      mined := Prefix(blockData.hash, difficulty) == Zeros(difficulty);
    }
  }
}
