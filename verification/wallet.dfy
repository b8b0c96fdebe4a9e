/** The Z Core wallet service (`z-core-wallet/main.go`): shielded transfers
    with an XOR-encrypted 512-byte memo, and plain transactions recorded in
    the wallet's history as "pending".

    SHA-256, the UTF-8 bytes of a Go string, the mock zk proof and the clock
    are parameters; HTTP and JSON are reduced to the decoded request and the
    reply the handler writes. */
module Wallet {
  import opened Wrappers
  import opened Bytes
  import Decimal
  import opened Arith

  /** The encrypted memo is always this long. */
  const MemoSize: nat := 512

  datatype ShieldedTransfer = ShieldedTransfer(
    sender: string,
    recipient: string,
    amount: int,
    memo: seq<Byte>,
    zkProof: seq<Byte>,
    nullifier: string)

  datatype Balance = Balance(z: int, nu: int)

  datatype Transaction = Transaction(
    hash: string,
    from: string,
    to: string,
    amount: int,
    token: string,
    /** `time.Now()`. */
    timestamp: int,
    status: string,
    memo: string,
    private: bool)

  datatype Wallet = Wallet(address: string, balance: Balance, txHistory: seq<Transaction>)

  datatype Env = Env(
    sha256: seq<Byte> -> Digest,
    /** `[]byte(s)` of a Go string. */
    utf8: string -> seq<Byte>,
    /** `generateZkProof`: a signature over the transfer's fields. */
    prove: (string, string, int, string, string) -> seq<Byte>)

  // ------------------------------------------------------------ memo

  /** Bitwise exclusive or of the low `n` bits of `a` and `b`. */
  function XorBits(a: nat, b: nat, n: nat): (r: nat)
    ensures r < Pow2(n)
  {
    if n == 0 then 0 else (if a % 2 == b % 2 then 0 else 1) + 2 * XorBits(a / 2, b / 2, n - 1)
  }

  /** `^` on bytes. */
  function Xor(a: Byte, b: Byte): Byte {
    assert Pow2(8) == 256;
    XorBits(a as nat, b as nat, 8) as Byte
  }

  lemma {:induction false} XorBitsTwice(a: nat, b: nat, n: nat)
    requires a < Pow2(n)
    ensures XorBits(XorBits(a, b, n), b, n) == a
  {
    if n > 0 {
      var low := if a % 2 == b % 2 then 0 else 1;
      var c := XorBits(a, b, n);
      assert c % 2 == low && c / 2 == XorBits(a / 2, b / 2, n - 1);
      XorBitsTwice(a / 2, b / 2, n - 1);
    }
  }

  lemma {:induction false} XorBitsSelf(a: nat, n: nat)
    ensures XorBits(a, a, n) == 0
  {
    if n > 0 {
      XorBitsSelf(a / 2, n - 1);
    }
  }

  lemma XorTwice(a: Byte, b: Byte)
    ensures Xor(Xor(a, b), b) == a
  {
    assert Pow2(8) == 256;
    XorBitsTwice(a as nat, b as nat, 8);
  }

  lemma XorSelf(a: Byte)
    ensures Xor(a, a) == 0
  {
    XorBitsSelf(a as nat, 8);
  }

  /** Each byte XORed with the key byte at its position mod 32. */
  function XorWithKey(data: seq<Byte>, key: Digest): (r: seq<Byte>)
    ensures |r| == |data|
    ensures forall i :: 0 <= i < |data| ==> r[i] == Xor(data[i], key[i % 32])
  {
    seq(|data|, i requires 0 <= i < |data| => Xor(data[i], key[i % 32]))
  }

  /** `encryptMemo`'s transformation, given the key `sha256(recipient)`: XOR,
      pad with zeros to 512 bytes, keep the first 512. */
  function EncryptMemo(memo: seq<Byte>, key: Digest): (r: seq<Byte>)
    ensures |r| == MemoSize
    ensures forall i :: 0 <= i < |memo| && i < MemoSize ==> r[i] == Xor(memo[i], key[i % 32])
    ensures forall i :: |memo| <= i < MemoSize ==> r[i] == 0
  {
    var data := XorWithKey(memo, key);
    var padded := if |data| < MemoSize then data + seq(MemoSize - |data|, _ => 0 as Byte) else data;
    padded[..MemoSize]
  }

  /** The recipient, who knows the key, gets a memo of up to 512 bytes back
      by XORing again. */
  lemma RecipientRecoversMemo(memo: seq<Byte>, key: Digest)
    requires |memo| <= MemoSize
    ensures XorWithKey(EncryptMemo(memo, key)[..|memo|], key) == memo
  {
    var back := XorWithKey(EncryptMemo(memo, key)[..|memo|], key);
    forall i | 0 <= i < |memo| ensures back[i] == memo[i] {
      XorTwice(memo[i], key[i % 32]);
    }
  }

  /** Only the first 512 bytes of a memo are kept. */
  lemma LongMemoTruncated(memo: seq<Byte>, key: Digest)
    requires |memo| > MemoSize
    ensures EncryptMemo(memo, key) == EncryptMemo(memo[..MemoSize], key)
  {
  }

  /** The memo's length is not recoverable: a trailing byte equal to its key
      byte encrypts to 0, the same as the padding. */
  lemma MemoLengthLost(memo: seq<Byte>, key: Digest)
    requires |memo| < MemoSize
    ensures EncryptMemo(memo + [key[|memo| % 32]], key) == EncryptMemo(memo, key)
  {
    var k := key[|memo| % 32];
    var longer := memo + [k];
    XorSelf(k);
    var a := EncryptMemo(longer, key);
    var b := EncryptMemo(memo, key);
    forall i | 0 <= i < MemoSize ensures a[i] == b[i] {
      if i < |memo| {
        assert longer[i] == memo[i];
      }
    }
  }

  /** `encryptMemo(memo, recipient)`: 512 bytes, from which whoever knows
      the recipient's key gets a memo of up to 512 bytes back. */
  function EncryptMemoFor(env: Env, memo: string, recipient: string): (r: seq<Byte>)
    ensures |r| == MemoSize
    ensures var m := env.utf8(memo);
      |m| <= MemoSize ==> XorWithKey(r[..|m|], env.sha256(env.utf8(recipient))) == m
  {
    var m := env.utf8(memo);
    var key := env.sha256(env.utf8(recipient));
    if |m| <= MemoSize then
      RecipientRecoversMemo(m, key);
      EncryptMemo(m, key)
    else EncryptMemo(m, key)
  }

  // ------------------------------------------------------------ shielded transfers

  /** `generateNullifier` and `generateTxHash`: the hex SHA-256 of
      "address:nanoseconds". */
  function TimeHash(env: Env, address: string, nowNanos: int): (h: string)
    ensures |h| == 64
  {
    HexEncode(env.sha256(env.utf8(address + ":" + Decimal.IntToDecimal(nowNanos))))
  }

  /** `CreateShieldedTransfer`: sender, recipient and amount are blanked; the
      record carries the nullifier, the proof and the encrypted memo. */
  function CreateShieldedTransfer(env: Env, w: Wallet, recipient: string, amount: int, memo: string,
                                  nowNanos: int)
    : (t: ShieldedTransfer)
    ensures t.sender == "" && t.recipient == "" && t.amount == 0
    ensures t.nullifier == TimeHash(env, w.address, nowNanos) && |t.nullifier| == 64
    ensures t.memo == EncryptMemoFor(env, memo, recipient) && |t.memo| == MemoSize
    ensures t.zkProof == env.prove(w.address, recipient, amount, memo, t.nullifier)
  {
    var nullifier := TimeHash(env, w.address, nowNanos);
    ShieldedTransfer("", "", 0, EncryptMemoFor(env, memo, recipient),
                     env.prove(w.address, recipient, amount, memo, nullifier), nullifier)
  }

  /** Two transfers differ in their clear fields only through the proof,
      the nullifier and the memo: amount and parties never show. */
  lemma ClearFieldsHidden(env: Env, w: Wallet, r1: string, a1: int, r2: string, a2: int, memo: string,
                          nowNanos: int)
    ensures var t1 := CreateShieldedTransfer(env, w, r1, a1, memo, nowNanos);
      var t2 := CreateShieldedTransfer(env, w, r2, a2, memo, nowNanos);
      t1.(memo := t2.memo, zkProof := t2.zkProof) == t2
  {
  }

  /** The recipient decrypts a transfer's memo with the hash of its own address. */
  lemma TransferMemoForRecipient(env: Env, w: Wallet, recipient: string, amount: int, memo: string,
                                 nowNanos: int)
    requires |env.utf8(memo)| <= MemoSize
    ensures var t := CreateShieldedTransfer(env, w, recipient, amount, memo, nowNanos);
      XorWithKey(t.memo[..|env.utf8(memo)|], env.sha256(env.utf8(recipient))) == env.utf8(memo)
  {
    RecipientRecoversMemo(env.utf8(memo), env.sha256(env.utf8(recipient)));
  }

  // ------------------------------------------------------------ createTransaction

  /** The decoded request body. */
  datatype TxRequest = TxRequest(recipient: string, amount: string, token: string, memo: string, private: bool)

  /** What the handler writes back. */
  datatype Reply =
    | DecodeFailed
    | InvalidAmount
    | Shielded(transfer: ShieldedTransfer)
    | Created(tx: Transaction)

  function StatusCode(r: Reply): int {
    if r.DecodeFailed? || r.InvalidAmount? then 400 else 200
  }

  /** A request that adds to the history: decodable, public, with an amount
      `strconv.ParseInt` accepts. */
  predicate RecordsHistory(req: Option<TxRequest>) {
    req.Some? && !req.value.private && Decimal.ParseInt64(req.value.amount).Some?
  }

  /** `createTransaction`; `req` is None when the JSON body does not decode.
      The shielded path's error branch is unreachable: `generateZkProof`
      never reports an error. */
  function CreateTransaction(env: Env, w: Wallet, req: Option<TxRequest>, nowNanos: int, now: int)
    : (r: (Wallet, Reply))
    ensures req.None? ==> r == (w, DecodeFailed)
    ensures req.Some? && Decimal.ParseInt64(req.value.amount).None? ==> r == (w, InvalidAmount)
    ensures !RecordsHistory(req) ==> r.0 == w
    ensures req.Some? && req.value.private && Decimal.ParseInt64(req.value.amount).Some? ==>
      r.1 == Shielded(CreateShieldedTransfer(env, w, req.value.recipient,
                                             Decimal.ParseInt64(req.value.amount).value, req.value.memo, nowNanos))
    ensures RecordsHistory(req) ==>
      r.1.Created? && r.0 == w.(txHistory := w.txHistory + [r.1.tx])
      && r.1.tx.from == w.address && r.1.tx.to == req.value.recipient && r.1.tx.status == "pending"
      && r.1.tx.amount == Decimal.ParseInt64(req.value.amount).value && !r.1.tx.private
      && r.1.tx.token == req.value.token && r.1.tx.memo == req.value.memo && r.1.tx.timestamp == now
      && r.1.tx.hash == TimeHash(env, w.address, nowNanos)
    ensures StatusCode(r.1) == 400 <==> req.None? || Decimal.ParseInt64(req.value.amount).None?
  {
    match req
    case None => (w, DecodeFailed)
    case Some(q) =>
      match Decimal.ParseInt64(q.amount)
      case None => (w, InvalidAmount)
      case Some(amount) =>
        if q.private then (w, Shielded(CreateShieldedTransfer(env, w, q.recipient, amount, q.memo, nowNanos)))
        else
          var tx := Transaction(TimeHash(env, w.address, nowNanos), w.address, q.recipient, amount, q.token,
                                now, "pending", q.memo, false);
          (w.(txHistory := w.txHistory + [tx]), Created(tx))
  }

  /** One call of the handler, with its clock readings. */
  datatype Call = Call(req: Option<TxRequest>, nowNanos: int, now: int)

  function Serve(env: Env, w: Wallet, calls: seq<Call>): Wallet
    decreases |calls|
  {
    if |calls| == 0 then w
    else
      var last := calls[|calls| - 1];
      CreateTransaction(env, Serve(env, w, calls[..|calls| - 1]), last.req, last.nowNanos, last.now).0
  }

  function CountRecorded(calls: seq<Call>): nat {
    if |calls| == 0 then 0
    else CountRecorded(calls[..|calls| - 1]) + (if RecordsHistory(calls[|calls| - 1].req) then 1 else 0)
  }

  /** Over any sequence of calls the history only grows, by one "pending"
      record from the wallet per public request with a valid amount; the
      address and balance never change. */
  lemma {:induction false} HistoryAppendOnly(env: Env, w: Wallet, calls: seq<Call>)
    ensures var after := Serve(env, w, calls);
      after.address == w.address && after.balance == w.balance
      && |after.txHistory| == |w.txHistory| + CountRecorded(calls)
      && after.txHistory[..|w.txHistory|] == w.txHistory
      && forall i :: |w.txHistory| <= i < |after.txHistory| ==>
           after.txHistory[i].from == w.address && after.txHistory[i].status == "pending"
           && !after.txHistory[i].private
    decreases |calls|
  {
    if |calls| > 0 {
      HistoryAppendOnly(env, w, calls[..|calls| - 1]);
    }
  }
}
