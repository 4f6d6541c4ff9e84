/** Transactions and blocks as the chain, the ledger and the producer share them
    (crates/bleep-core/src/block.rs, transaction.rs). The sealed parts of a block are opaque bytes. */
module Blocks {
  import opened Encoding

  type Addr = Bytes

  datatype Tx = Tx(chainId: Bytes, sender: Addr, receiver: Addr, amount: nat, timestamp: nat, nonce: nat,
                   signature: Bytes)

  /** `root` commits to the accounts after the block. */
  datatype Block = Block(index: nat, previous: Bytes, txs: seq<Tx>, epoch: nat, root: Bytes, seal: Bytes)

  function Decimal(n: nat): Bytes {
    (if n < 10 then [] else Decimal(n / 10)) + [48 + n % 10]
  }

  const COLON: Bytes := [58]

  /** `canonical_tx_id`: the nonce is not part of it. */
  function TxId(t: Tx): Bytes {
    t.sender + COLON + t.receiver + COLON + Decimal(t.amount) + COLON + Decimal(t.timestamp)
  }

  lemma {:induction false} DecimalDigits(n: nat)
    ensures |Decimal(n)| > 0 && forall i | 0 <= i < |Decimal(n)| :: 48 <= Decimal(n)[i] <= 57
  {
    if n >= 10 { DecimalDigits(n / 10); }
  }

  lemma {:induction false} DecimalInjective(m: nat, n: nat)
    requires Decimal(m) == Decimal(n)
    ensures m == n
  {
    DecimalDigits(m / 10);
    DecimalDigits(n / 10);
    var a, b := Decimal(m), Decimal(n);
    assert a[|a| - 1] == 48 + m % 10 && b[|b| - 1] == 48 + n % 10;
    if m >= 10 && n >= 10 {
      assert a[..|a| - 1] == Decimal(m / 10) && b[..|b| - 1] == Decimal(n / 10);
      DecimalInjective(m / 10, n / 10);
    }
  }

  lemma ColonInside(a: Bytes, x: Bytes, b: Bytes, y: Bytes)
    requires a + COLON + x == b + COLON + y && |a| < |b|
    ensures 58 in b
  {
    assert (a + COLON + x)[|a|] == 58 && (b + COLON + y)[|a|] == b[|a|];
  }

  /** Two texts with a colon after a colon-free part split in the same place. */
  lemma ColonSplits(a: Bytes, x: Bytes, b: Bytes, y: Bytes)
    requires 58 !in a && 58 !in b && a + COLON + x == b + COLON + y
    ensures a == b && x == y
  {
    var u, v := a + COLON + x, b + COLON + y;
    if |a| < |b| {
      ColonInside(a, x, b, y);
    } else if |b| < |a| {
      ColonInside(b, y, a, x);
    }
    assert u[..|a|] == a && v[..|b|] == b && u[|a| + 1..] == x && v[|b| + 1..] == y;
  }

  /** For addresses without colons an id stands for sender, receiver, amount and timestamp, whatever the
      nonce, the chain and the signature. */
  lemma TxIdIff(t: Tx, u: Tx)
    requires 58 !in t.sender && 58 !in t.receiver && 58 !in u.sender && 58 !in u.receiver
    ensures TxId(t) == TxId(u) <==>
              t.sender == u.sender && t.receiver == u.receiver && t.amount == u.amount && t.timestamp == u.timestamp
  {
    hide Decimal;
    if TxId(t) == TxId(u) {
      var a, b := Decimal(t.amount) + COLON + Decimal(t.timestamp), Decimal(u.amount) + COLON + Decimal(u.timestamp);
      var x, y := t.receiver + COLON + a, u.receiver + COLON + b;
      assert TxId(t) == t.sender + COLON + x && TxId(u) == u.sender + COLON + y;
      ColonSplits(t.sender, x, u.sender, y);
      ColonSplits(t.receiver, a, u.receiver, b);
      DecimalDigits(t.amount);
      DecimalDigits(u.amount);
      ColonSplits(Decimal(t.amount), Decimal(t.timestamp), Decimal(u.amount), Decimal(u.timestamp));
      DecimalInjective(t.amount, u.amount);
      DecimalInjective(t.timestamp, u.timestamp);
    }
  }
}
