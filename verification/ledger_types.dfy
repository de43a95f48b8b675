/**
 * The values of the ledger: transactions, the data record a block wraps,
 * the hash function over a block's fields, and the proof-of-work target.
 */
module LedgerTypes {
  import opened Wrappers

  /** A value transfer. `fromAddress == None` is a minted transfer (genesis, mining reward). */
  datatype Transaction = Transaction(toAddress: string, fromAddress: Option<string>, amount: int)

  /**
   * The record a block owns. `nonce` is `None` until the block's constructor
   * sets it; `hash` is whatever was last stored, not necessarily the hash of
   * the other fields.
   */
  datatype BlockData = BlockData(
    timestamp: int,
    transactions: seq<Transaction>,
    previousHash: string,
    hash: string,
    nonce: Option<nat>)

  /**
   * The digest of a block's hash input: timestamp, transaction list,
   * previous hash and the text of the nonce. It stands for SHA-256 over the
   * joined, serialised fields; nothing is assumed about it beyond being a
   * function (in particular, no freedom from collisions).
   */
  type HashFn = (int, seq<Transaction>, string, string) -> string

  /** The transaction every genesis block carries. */
  const GenesisTransaction := Transaction("", None, 0)

  // ---------------------------------------------------------------------
  // Nonce text: what the nonce contributes to the joined hash input.

  function DigitChar(d: nat): (c: char)
    requires d < 10
  {
    "0123456789"[d]
  }

  function DigitValue(c: char): (d: nat)
  {
    if '0' <= c <= '9' then (c - '0') as nat else 0
  }

  /** Decimal text of a natural number, without leading zeros. */
  function NatText(n: nat): (s: string)
    ensures s != []
    ensures forall i :: 0 <= i < |s| ==> '0' <= s[i] <= '9'
  {
    if n < 10 then [DigitChar(n)] else NatText(n / 10) + [DigitChar(n % 10)]
  }

  /** Reads decimal digits back into a number. */
  function ParseNat(s: string): (n: nat)
  {
    if s == [] then 0 else ParseNat(s[..|s| - 1]) * 10 + DigitValue(s[|s| - 1])
  }

  lemma {:induction false} NatTextRoundTrip(n: nat)
    ensures ParseNat(NatText(n)) == n
  {
    var s := NatText(n);
    if n < 10 {
      assert s[..|s| - 1] == [];
    } else {
      NatTextRoundTrip(n / 10);
      assert s[..|s| - 1] == NatText(n / 10);
    }
  }

  /** An unset nonce joins as the empty string; a set one as its decimal text. */
  function NonceText(nonce: Option<nat>): (text: string)
  {
    match nonce
    case None => ""
    case Some(n) => NatText(n)
  }

  /** Distinct nonce states always give distinct hash inputs. */
  lemma NonceTextInjective(a: Option<nat>, b: Option<nat>)
    ensures NonceText(a) == NonceText(b) <==> a == b
  {
    if a.Some? && b.Some? && NonceText(a) == NonceText(b) {
      NatTextRoundTrip(a.value);
      NatTextRoundTrip(b.value);
    }
  }

  /** The hash `calculateHash` computes from a block's current fields. */
  function HashOf(d: BlockData, digest: HashFn): (h: string)
  {
    digest(d.timestamp, d.transactions, d.previousHash, NonceText(d.nonce))
  }

  // ---------------------------------------------------------------------
  // Proof-of-work target.

  /** `s.substring(0, n)`: the end index is clamped to the length. */
  function Prefix(s: string, n: nat): (p: string)
    ensures |p| == if n <= |s| then n else |s|
    ensures forall i :: 0 <= i < |p| ==> p[i] == s[i]
  {
    if n <= |s| then s[..n] else s
  }

  /** `Array(n + 1).join('0')`: a run of `n` zero characters. */
  function Zeros(n: nat): (z: string)
    ensures |z| == n && forall i :: 0 <= i < n ==> z[i] == '0'
  {
    if n == 0 then [] else Zeros(n - 1) + ['0']
  }

  /** The first `difficulty` characters of `hash` exist and are all '0'. */
  predicate MeetsDifficulty(hash: string, difficulty: nat)
  {
    difficulty <= |hash| && forall i :: 0 <= i < difficulty ==> hash[i] == '0'
  }

  /** The mining loop's guard compares a clamped prefix with a run of zeros; it stops exactly at the target. */
  lemma PrefixIsZerosIff(hash: string, difficulty: nat)
    ensures Prefix(hash, difficulty) == Zeros(difficulty) <==> MeetsDifficulty(hash, difficulty)
  {
  }
}
