/**
 src/PoW/pow.c: difficulty, canonical serialisation into a buffer, and the bounded nonce search.
 SHA-256 itself is a parameter: any function from byte strings to 32-byte digests.
 */
module Pow {
  import opened CStrings
  import opened Records

  const POW_MAX_OPS := 10_000_000

  type Sha = seq<Byte> -> seq<Byte>

  ghost predicate IsSha(sha: Sha)
  {
    forall m :: |sha(m)| == 32
  }

  // ---------------------------------------------------------------- hexadecimal digests

  function HexDigit(n: nat): (c: Byte)
    requires n < 16
  {
    if n < 10 then '0' as int + n else 'a' as int + n - 10
  }

  predicate IsHexDigit(c: Byte) { '0' as int <= c <= '9' as int || 'a' as int <= c <= 'f' as int }

  function DigitOf(c: Byte): (n: nat)
    requires IsHexDigit(c)
    ensures n < 16
  {
    if c <= '9' as int then c - '0' as int else c - 'a' as int + 10
  }

  /** The digit that stands for a number reads as that number. */
  lemma DigitOfHexDigit(n: nat)
    requires n < 16
    ensures IsHexDigit(HexDigit(n)) && DigitOf(HexDigit(n)) == n
  {
  }

  predicate AllHex(s: seq<Byte>) { forall i :: 0 <= i < |s| ==> IsHexDigit(s[i]) }

  /** `%02x` of every digest byte. */
  function Hex(digest: seq<Byte>): (s: seq<Byte>)
    ensures |s| == 2 * |digest| && AllHex(s)
  {
    seq(2 * |digest|, k requires 0 <= k < 2 * |digest| =>
      if k % 2 == 0 then HexDigit(digest[k / 2] / 16) else HexDigit(digest[k / 2] % 16))
  }

  lemma HexPair(digest: seq<Byte>, i: nat)
    requires i < |digest|
    ensures Hex(digest)[2 * i] == HexDigit(digest[i] / 16) && Hex(digest)[2 * i + 1] == HexDigit(digest[i] % 16)
  {
  }

  function Digest(sha: Sha, b: Block): (s: seq<Byte>)
    ensures AllHex(s)
  {
    Hex(sha(Serialize(b)))
  }

  /** The 65-byte buffer that `compute_sha256` fills. */
  function HashBuf(sha: Sha, b: Block): (buf: seq<Byte>)
  {
    Digest(sha, b) + [NUL]
  }

  function Pow16(k: nat): (p: nat)
    ensures p >= 1
  {
    if k == 0 then 1 else 16 * Pow16(k - 1)
  }

  /** The number a hexadecimal string writes. */
  function HexValue(s: seq<Byte>): (v: nat)
    requires AllHex(s)
  {
    if s == [] then 0 else DigitOf(s[0]) * Pow16(|s| - 1) + HexValue(s[1..])
  }

  /** The number that a string of bytes is, most significant byte first: the sum of `d[i] * 256^(|d| - 1 - i)`. */
  function BytesValue(d: seq<Byte>): (v: nat)
  {
    if d == [] then 0 else d[0] * Pow256(|d| - 1) + BytesValue(d[1..])
  }

  lemma {:induction false} SixteenSquared(k: nat)
    ensures Pow16(2 * k) == Pow256(k)
  {
    if k > 0 {
      SixteenSquared(k - 1);
      assert Pow16(2 * k) == 16 * (16 * Pow16(2 * k - 2));
    }
  }

  lemma HexTail(d: seq<Byte>)
    requires d != []
    ensures Hex(d) == [HexDigit(d[0] / 16), HexDigit(d[0] % 16)] + Hex(d[1..])
  {
    var s, t := Hex(d), [HexDigit(d[0] / 16), HexDigit(d[0] % 16)] + Hex(d[1..]);
    forall k | 0 <= k < |s| ensures s[k] == t[k] {
      HexPair(d, k / 2);
      if k >= 2 {
        HexPair(d[1..], k / 2 - 1);
      }
    }
  }

  lemma TwoDigits(s: seq<Byte>)
    requires |s| >= 2 && AllHex(s)
    ensures HexValue(s) == DigitOf(s[0]) * (16 * Pow16(|s| - 2)) + DigitOf(s[1]) * Pow16(|s| - 2) + HexValue(s[2..])
  {
    assert s[1..][1..] == s[2..];
  }

  lemma ByteOfDigits(hi: nat, lo: nat, p: nat)
    ensures hi * (16 * p) + lo * p == (16 * hi + lo) * p
  {
  }

  /** The hexadecimal print of a digest writes the number that the digest is. */
  lemma {:induction false} HexWritesBytes(d: seq<Byte>)
    ensures HexValue(Hex(d)) == BytesValue(d)
  {
    if d != [] {
      HexWritesBytes(d[1..]);
      HexTail(d);
      TwoDigits(Hex(d));
      assert Hex(d)[2..] == Hex(d[1..]);
      DigitOfHexDigit(d[0] / 16);
      DigitOfHexDigit(d[0] % 16);
      SixteenSquared(|d| - 1);
      ByteOfDigits(d[0] / 16, d[0] % 16, Pow16(2 * (|d| - 1)));
    }
  }

  /** The hexadecimal print of a digest determines the digest. */
  lemma HexInjective(d: seq<Byte>, d': seq<Byte>)
    requires Hex(d) == Hex(d')
    ensures d == d'
  {
    assert |Hex(d)| == |Hex(d')|;
    forall i | 0 <= i < |d| ensures d[i] == d'[i] {
      HexPair(d, i);
      HexPair(d', i);
      assert d[i] == 16 * (d[i] / 16) + d[i] % 16 && d'[i] == 16 * (d'[i] / 16) + d'[i] % 16;
    }
  }

  lemma HashBufShape(sha: Sha, b: Block)
    requires IsSha(sha)
    ensures var h := HashBuf(sha, b);
            |h| == HASH_SIZE && Canonical(h) && CStr(h) == Digest(sha, b) && |CStr(h)| == 64
  {
    var d := Digest(sha, b);
    assert NUL !in d;
    CStrOfPad(d, HASH_SIZE);
    assert Pad(d, HASH_SIZE) == HashBuf(sha, b);
  }

  // ---------------------------------------------------------------- difficulty

  datatype DifficultyLevel = EASY | NORMAL | HARD

  function GetDifficultFromReward(reward: int): (d: DifficultyLevel)
  {
    if reward <= 1 then EASY else if reward == 2 then NORMAL else HARD
  }

  /** The bound for a number of `digits` digits; 12 * 16^59, 16^59 and 12 * 16^58 for the 64 digits of a digest. */
  function Threshold(digits: nat, reward: int): (t: nat)
    requires digits >= 6
  {
    match GetDifficultFromReward(reward)
    case EASY => 12 * Pow16(digits - 5)
    case NORMAL => Pow16(digits - 5)
    case HARD => 12 * Pow16(digits - 6)
  }

  /** The meaning of `check_difficulty`: the number the digest writes is below the bound for the reward. */
  predicate Meets(digest: seq<Byte>, reward: int)
    requires AllHex(digest)
  {
    |digest| == 64 && HexValue(digest) < Threshold(|digest|, reward)
  }

  function MaxReward(txs: seq<Tx>): (m: int)
    ensures m >= 0
    ensures forall i :: 0 <= i < |txs| ==> txs[i].reward <= m
    ensures m == 0 || exists i :: 0 <= i < |txs| && txs[i].reward == m
  {
    if txs == [] then 0
    else
      var m := MaxReward(txs[..|txs| - 1]);
      if txs[|txs| - 1].reward > m then txs[|txs| - 1].reward else m
  }

  predicate VerifyNonce(sha: Sha, b: Block)
  {
    Meets(Digest(sha, b), MaxReward(b.txs))
  }

  lemma {:induction false} Pow16Mono(a: nat, b: nat)
    requires a <= b
    ensures Pow16(a) <= Pow16(b)
    decreases b
  {
    if a < b {
      Pow16Mono(a, b - 1);
    }
  }

  lemma TopDigit(d: nat, p: nat, v: nat)
    requires v < p
    ensures d * p + v < (d + 1) * p
    ensures d < 16 ==> d * p + v < 16 * p
    ensures d >= 1 ==> d * p >= p
  {
    if d < 16 {
      assert (15 - d) * p >= 0;
    }
    if d >= 1 {
      assert (d - 1) * p >= 0;
    }
  }

  lemma {:induction false} HexValueBound(s: seq<Byte>)
    requires AllHex(s)
    ensures HexValue(s) < Pow16(|s|)
  {
    if s != [] {
      HexValueBound(s[1..]);
      TopDigit(DigitOf(s[0]), Pow16(|s| - 1), HexValue(s[1..]));
    }
  }

  /** A string of `z` zeros and then `d` writes `d * 16^k + v`, `k` being the digits left and `v < 16^k`. */
  lemma {:induction false} LeadingZeros(s: seq<Byte>, z: nat) returns (v: nat)
    requires AllHex(s) && z < |s|
    requires forall i :: 0 <= i < z ==> s[i] == ZERO
    ensures v < Pow16(|s| - z - 1) && HexValue(s) == DigitOf(s[z]) * Pow16(|s| - z - 1) + v
  {
    if z == 0 {
      HexValueBound(s[1..]);
      v := HexValue(s[1..]);
    } else {
      assert DigitOf(s[0]) == 0 && HexValue(s) == HexValue(s[1..]);
      v := LeadingZeros(s[1..], z - 1);
    }
  }

  lemma {:induction false} AllZeros(s: seq<Byte>)
    requires forall i :: 0 <= i < |s| ==> s[i] == ZERO
    ensures AllHex(s) && HexValue(s) == 0
  {
    if s != [] {
      AllZeros(s[1..]);
    }
  }

  lemma LowerOrder(d: nat, p: nat, v: nat, m: nat, q: nat)
    requires d < 16 && v < p && m >= 1 && 16 * p <= q
    ensures d * p + v < m * q
  {
    TopDigit(d, p, v);
    TopDigit(m, q, 0);
  }

  lemma SameOrder(d: nat, p: nat, v: nat, m: nat)
    requires v < p
    ensures d * p + v < m * p <==> d < m
  {
    if d < m {
      TimesMono(d + 1, m, p);
      assert (d + 1) * p == d * p + p;
    } else {
      TimesMono(m, d, p);
    }
  }

  lemma TimesMono(a: nat, b: nat, p: nat)
    requires a <= b
    ensures a * p <= b * p
  {
  }

  /**
   Comparing with `m * 16^j`: `d * 16^k + v` with `1 <= d < 16` is below it by the order of `k` and `j`, then of `d` and
   `m`.
   */
  lemma CompareLeading(d: nat, k: nat, v: nat, m: nat, j: nat)
    requires 1 <= d < 16 && v < Pow16(k) && 1 <= m < 16
    ensures d * Pow16(k) + v < m * Pow16(j) <==> k < j || (k == j && d < m)
  {
    if k < j {
      Pow16Mono(k + 1, j);
      LowerOrder(d, Pow16(k), v, m, Pow16(j));
    } else if k > j {
      Pow16Mono(j + 1, k);
      LowerOrder(m, Pow16(j), 0, d, Pow16(k));
    } else {
      SameOrder(d, Pow16(k), v, m);
    }
  }

  lemma LeadingDecides(d: nat, k: nat, v: nat, reward: int)
    requires 1 <= d < 16 && v < Pow16(k)
    ensures d * Pow16(k) + v < Threshold(64, reward) <==>
            match GetDifficultFromReward(reward)
            case EASY => k < 59 || (k == 59 && d < 12)
            case NORMAL => k < 59
            case HARD => k < 58 || (k == 58 && d < 12)
  {
    match GetDifficultFromReward(reward)
    case EASY => CompareLeading(d, k, v, 12, 59);
    case NORMAL => CompareLeading(d, k, v, 1, 59);
    case HARD => CompareLeading(d, k, v, 12, 58);
  }

  /** The scan of `check_difficulty` decides the numeric bound: `zeros` leading zeros and then the character `next`. */
  lemma ScanDecidesThreshold(s: seq<Byte>, zeros: nat, next: Byte, reward: int)
    requires |s| == 64 && AllHex(s) && zeros <= |s|
    requires forall i :: 0 <= i < zeros ==> s[i] == ZERO
    requires if zeros < |s| then next == s[zeros] && next != ZERO else next == NUL
    ensures Meets(s, reward) <==>
            zeros >= 4 && match GetDifficultFromReward(reward)
                          case EASY => (zeros == 4 && next <= 'b' as int) || zeros > 4
                          case NORMAL => zeros >= 5
                          case HARD => (zeros == 5 && next <= 'b' as int) || zeros > 5
  {
    var n := |s|;
    if zeros == n {
      AllZeros(s);
    } else {
      var v := LeadingZeros(s, zeros);
      LeadingDecides(DigitOf(next), n - zeros - 1, v, reward);
    }
  }

  /** What each reward asks of the 64 digits of a digest. */
  lemma MeetsByReward(s: seq<Byte>, reward: int)
    requires |s| == 64 && AllHex(s)
    ensures reward <= 1 ==> (Meets(s, reward) <==> HexValue(s) < 12 * Pow16(59))
    ensures reward == 2 ==> (Meets(s, reward) <==> HexValue(s) < Pow16(59))
    ensures reward >= 3 ==> (Meets(s, reward) <==> HexValue(s) < 12 * Pow16(58))
  {
  }

  /** A nonce is valid exactly when the digest, as a number, is below the bound of the largest reward. */
  lemma VerifyMeans(sha: Sha, b: Block)
    requires IsSha(sha)
    ensures var reward, number := MaxReward(b.txs), BytesValue(sha(Serialize(b)));
            VerifyNonce(sha, b) <==>
            number < if reward <= 1 then 12 * Pow16(59) else if reward == 2 then Pow16(59) else 12 * Pow16(58)
  {
    HexWritesBytes(sha(Serialize(b)));
    MeetsByReward(Digest(sha, b), MaxReward(b.txs));
  }

  /** Higher rewards are never easier. */
  lemma MeetsAntitone(digest: seq<Byte>, r: int, r': int)
    requires AllHex(digest) && r <= r'
    ensures Meets(digest, r') ==> Meets(digest, r)
  {
    if |digest| == 64 {
      assert Pow16(|digest| - 5) == 16 * Pow16(|digest| - 6);
    }
  }

  /** A block valid for its maximum reward is valid for the reward of each of its transactions. */
  lemma ValidForEveryReward(sha: Sha, b: Block, i: nat)
    requires VerifyNonce(sha, b) && i < |b.txs|
    ensures Meets(Digest(sha, b), b.txs[i].reward)
  {
    MeetsAntitone(Digest(sha, b), b.txs[i].reward, MaxReward(b.txs));
  }

  method GetMaxTransactionReward(txs: seq<Tx>) returns (maxReward: int)
    ensures maxReward == MaxReward(txs)
  {
    maxReward := 0;
    for i := 0 to |txs|
      invariant maxReward == MaxReward(txs[..i])
    {
      var reward := txs[i].reward;
      assert txs[..i + 1][..i] == txs[..i];
      if reward > maxReward {
        maxReward := reward;
      }
    }
    assert txs[..|txs|] == txs;
  }

  /** `check_difficulty` on the 65-byte buffer of a digest. */
  method CheckDifficulty(hash: array<Byte>, reward: int) returns (ok: bool)
    requires hash.Length == HASH_SIZE && hash[64] == NUL && AllHex(hash[..64])
    ensures ok == Meets(hash[..64], reward)
    ensures var k := hash.Length - 6;  // 59
            ok <==> HexValue(hash[..64])
                    < if reward <= 1 then 12 * Pow16(k) else if reward == 2 then Pow16(k) else 12 * Pow16(k - 1)
  {
    var minimum := 4;
    var zeros := 0;
    var difficulty := GetDifficultFromReward(reward);
    while hash[zeros] == ZERO
      invariant 0 <= zeros <= 64
      invariant forall i :: 0 <= i < zeros ==> hash[i] == ZERO
      decreases 64 - zeros
    {
      zeros := zeros + 1;
    }
    var nextChar := hash[zeros];
    ScanDecidesThreshold(hash[..64], zeros, nextChar, reward);
    if zeros < minimum {
      return false;
    }
    match difficulty
    case EASY => ok := (zeros == 4 && nextChar <= 'b' as int) || zeros > 4;
    case NORMAL => ok := zeros >= 5;
    case HARD => ok := (zeros == 5 && nextChar <= 'b' as int) || zeros > 5;
  }

  // ---------------------------------------------------------------- serialising into a buffer

  method MemCpy(dst: array<Byte>, at: nat, src: seq<Byte>)
    requires at + |src| <= dst.Length
    modifies dst
    ensures dst[..at + |src|] == old(dst[..at]) + src
    ensures forall i :: at + |src| <= i < dst.Length ==> dst[i] == old(dst[i])
  {
    forall i | 0 <= i < |src| {
      dst[at + i] := src[i];
    }
  }

  /** The write pointer ends exactly at the end of the buffer. */
  method SerializeBlock(block: Block) returns (buffer: array<Byte>)
    requires Shaped(block)
    ensures fresh(buffer) && buffer.Length == SerializedSize(|block.txs|) && buffer[..] == Serialize(block)
  {
    buffer := new Byte[SerializedSize(|block.txs|)];
    var p := 0;
    MemCpy(buffer, p, block.id);
    p := p + TXB_ID_LEN;
    MemCpy(buffer, p, block.prev);
    p := p + HASH_SIZE;
    MemCpy(buffer, p, LE(block.timestamp, 8));
    p := p + 8;
    ghost var head := buffer[..p];
    assert head == block.id + block.prev + LE(block.timestamp, 8);
    p := CopyTransactions(buffer, p, block.txs);
    MemCpy(buffer, p, LE(block.nonce, 4));
    p := p + 4;
    assert buffer[..] == buffer[..p];
  }

  lemma AppendTx(head: seq<Byte>, txs: seq<Tx>, i: nat)
    requires i < |txs|
    ensures head + EncodeTxs(txs[..i]) + EncodeTx(txs[i]) == head + EncodeTxs(txs[..i + 1])
  {
    EncodeTxsSnoc(txs[..i], txs[i]);
    assert txs[..i] + [txs[i]] == txs[..i + 1];
    Regroup(head, EncodeTxs(txs[..i]), EncodeTx(txs[i]));
  }

  method CopyTransactions(buffer: array<Byte>, at: nat, txs: seq<Tx>) returns (p: nat)
    requires forall i :: 0 <= i < |txs| ==> |txs[i].id| == TX_ID_LEN
    requires at + TX_SIZE * |txs| <= buffer.Length
    modifies buffer
    ensures p == at + TX_SIZE * |txs|
    ensures buffer[..p] == old(buffer[..at]) + EncodeTxs(txs)
  {
    p := at;
    ghost var head := buffer[..at];
    for i := 0 to |txs|
      invariant p == at + TX_SIZE * i
      invariant buffer[..p] == head + EncodeTxs(txs[..i])
    {
      MemCpy(buffer, p, EncodeTx(txs[i]));
      AppendTx(head, txs, i);
      p := p + TX_SIZE;
    }
    assert txs[..|txs|] == txs;
  }

  /** `sprintf(output, "%02x", …)` for every digest byte, each call writing its terminator. */
  method PrintHex(output: array<Byte>, hash: seq<Byte>)
    requires output.Length == 2 * |hash| + 1
    modifies output
    ensures output[..] == Hex(hash) + [NUL]
  {
    ghost var h := Hex(hash);
    for i := 0 to |hash|
      invariant forall k :: 0 <= k < 2 * i ==> output[k] == h[k]
    {
      HexPair(hash, i);
      output[2 * i], output[2 * i + 1], output[2 * i + 2] := HexDigit(hash[i] / 16), HexDigit(hash[i] % 16), NUL;
    }
    output[2 * |hash|] := NUL;
  }

  method ComputeSha256(sha: Sha, block: Block) returns (output: array<Byte>)
    requires IsSha(sha) && Shaped(block)
    ensures fresh(output) && output[..] == HashBuf(sha, block)
    ensures output.Length == HASH_SIZE && AllHex(output[..64]) && output[64] == NUL
    ensures HexValue(output[..64]) == BytesValue(sha(Serialize(block)))
  {
    output := new Byte[HASH_SIZE];
    var buffer := SerializeBlock(block);
    PrintHex(output, sha(buffer[..]));
    HexWritesBytes(sha(Serialize(block)));
    assert output[..64] == Digest(sha, block);
  }

  // ---------------------------------------------------------------- the nonce search

  /** The first number in `from..max` that passes. */
  function LeastFrom(ok: nat -> bool, from: nat, max: nat): (r: Option<nat>)
    ensures r.Some? ==> from <= r.value <= max && ok(r.value) && forall n :: from <= n < r.value ==> !ok(n)
    ensures r.None? ==> forall n :: from <= n <= max ==> !ok(n)
    decreases max + 1 - from
  {
    if from > max then None else if ok(from) then Some(from) else LeastFrom(ok, from + 1, max)
  }

  function NonceOk(sha: Sha, b: Block): (ok: nat -> bool)
  {
    n => VerifyNonce(sha, b.(nonce := n))
  }

  /** The nonce the miner of `b` ends with, or nothing when all of 0..POW_MAX_OPS fail. */
  function FirstNonce(sha: Sha, b: Block): (r: Option<nat>)
  {
    LeastFrom(NonceOk(sha, b), 0, POW_MAX_OPS)
  }

  /**
   What the rest of the system uses of pow.c: `compute_sha256`, `proof_of_work` (the nonce it ends with) and
   `verify_nonce`.
   */
  datatype PowInterface = PowInterface(hash: Block -> seq<Byte>, mine: Block -> Option<nat>, verify: Block -> bool)

  function PowOf(sha: Sha): (p: PowInterface)
  {
    PowInterface(b => HashBuf(sha, b), b => FirstNonce(sha, b), b => VerifyNonce(sha, b))
  }

  /** A hash fills its 65-byte buffer with 64 characters and the terminator. */
  predicate HashShape(h: seq<Byte>)
  {
    |h| == HASH_SIZE && Canonical(h) && |CStr(h)| == 64
  }

  /** What the protocol needs of it: hashes of full length, and mined nonces that verify. */
  ghost predicate PowOk(p: PowInterface)
  {
    && (forall b :: HashShape(p.hash(b)))
    && forall b :: p.mine(b).Some? ==> p.verify(b.(nonce := p.mine(b).value))
  }

  lemma PowOfIsOk(sha: Sha)
    requires IsSha(sha)
    ensures PowOk(PowOf(sha))
  {
    var p := PowOf(sha);
    forall b ensures HashShape(p.hash(b)) {
      HashBufShape(sha, b);
    }
    forall b | p.mine(b).Some? ensures p.verify(b.(nonce := p.mine(b).value)) {
      assert NonceOk(sha, b)(p.mine(b).value);
    }
  }

  lemma HashEqualIsShaEqual(sha: Sha, a: Block, b: Block)
    requires HashBuf(sha, a) == HashBuf(sha, b)
    ensures sha(Serialize(a)) == sha(Serialize(b))
  {
    assert Digest(sha, a) == HashBuf(sha, a)[..|HashBuf(sha, a)| - 1];
    assert Digest(sha, b) == HashBuf(sha, b)[..|HashBuf(sha, b)| - 1];
    HexInjective(sha(Serialize(a)), sha(Serialize(b)));
  }

  class TransactionBlock {
    var id: seq<Byte>
    var prev: seq<Byte>
    var timestamp: int
    var nonce: int
    var transactions: seq<Tx>

    constructor (b: Block)
      ensures View() == b
    {
      id, prev, timestamp, nonce, transactions := b.id, b.prev, b.timestamp, b.nonce, b.txs;
    }

    function View(): Block
      reads this
    {
      Block(id, prev, timestamp, nonce, transactions)
    }
  }

  datatype PoWResult = PoWResult(hash: seq<Byte>, operations: nat, error: bool)

  method Verify(sha: Sha, block: Block) returns (ok: bool)
    requires IsSha(sha) && Shaped(block)
    ensures ok == VerifyNonce(sha, block)
    ensures var reward, number := MaxReward(block.txs), BytesValue(sha(Serialize(block)));
            ok <==> number < if reward <= 1 then 12 * Pow16(59) else if reward == 2 then Pow16(59) else 12 * Pow16(58)
  {
    VerifyMeans(sha, block);
    var reward := GetMaxTransactionReward(block.txs);
    var hash;
    hash, ok := HashAndCheck(sha, block, reward);
  }

  /** `compute_sha256` followed by `check_difficulty`. */
  method HashAndCheck(sha: Sha, block: Block, reward: int) returns (hash: array<Byte>, passes: bool)
    requires IsSha(sha) && Shaped(block) && reward == MaxReward(block.txs)
    ensures fresh(hash) && hash[..] == HashBuf(sha, block) && passes == VerifyNonce(sha, block)
  {
    hash := ComputeSha256(sha, block);
    assert hash[..64] == Digest(sha, block);
    passes := CheckDifficulty(hash, reward);
  }

  /** Terminates with the least successful nonce, or reports an error after all of 0..POW_MAX_OPS failed. */
  method ProofOfWork(sha: Sha, block: TransactionBlock) returns (result: PoWResult)
    requires IsSha(sha) && Shaped(block.View())
    modifies block`nonce
    ensures var b := old(block.View());
      match FirstNonce(sha, b)
      case Some(n) =>
        && !result.error && block.View() == b.(nonce := n) && result.operations == n
        && result.hash == HashBuf(sha, block.View()) && VerifyNonce(sha, block.View())
      case None => result.error && block.View() == b.(nonce := POW_MAX_OPS + 1) && result.operations == POW_MAX_OPS
  {
    var operations := 0;
    block.nonce := 0;
    var reward := GetMaxTransactionReward(block.transactions);
    ghost var start, ok := old(block.View()), NonceOk(sha, old(block.View()));
    while true
      invariant 0 <= operations <= POW_MAX_OPS
      invariant block.View() == start.(nonce := operations)
      invariant FirstNonce(sha, start) == LeastFrom(ok, operations, POW_MAX_OPS)
      decreases POW_MAX_OPS - operations
    {
      ghost var tried := start.(nonce := operations);
      var hash, passes := HashAndCheck(sha, block.View(), reward);
      assert passes == VerifyNonce(sha, tried) == ok(operations);
      if passes {
        return PoWResult(hash[..], operations, false);
      }
      block.nonce := block.nonce + 1;
      if block.nonce > POW_MAX_OPS {
        return PoWResult([], operations, true);
      }
      operations := operations + 1;
    }
  }
}
