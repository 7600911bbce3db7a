/**
 The records of include/Controller.h and their bytes on the 64-bit little-endian layout:
 the canonical serialisation that is hashed and the frame that travels through the pipe.
 */
module Records {
  import opened CStrings

  const TX_ID_LEN := 64
  const HASH_SIZE := 65

  const TX_SIZE := 80
  const HEADER_SIZE := 141
  const PREFIX_SIZE := 8

  /** `value` is the bit pattern of the float: it is only copied and compared. */
  datatype Tx = Tx(id: seq<Byte>, reward: int, value: int, timestamp: int)

  datatype Block = Block(id: seq<Byte>, prev: seq<Byte>, timestamp: int, nonce: int, txs: seq<Tx>)

  const ZERO_TX := Tx(Zeros(TX_ID_LEN), 0, 0, 0)

  function ZeroBlock(txsPerBlock: nat): (b: Block)
  {
    Block(Zeros(TXB_ID_LEN), Zeros(HASH_SIZE), 0, 0, seq(txsPerBlock, _ => ZERO_TX))
  }

  // ---------------------------------------------------------------- widths

  predicate IsInt32(n: int) { -0x8000_0000 <= n < 0x8000_0000 }

  predicate IsUInt32(n: int) { 0 <= n < 0x1_0000_0000 }

  predicate IsInt64(n: int) { -0x8000_0000_0000_0000 <= n < 0x8000_0000_0000_0000 }

  predicate TxInRange(t: Tx)
  {
    |t.id| == TX_ID_LEN && IsInt32(t.reward) && IsUInt32(t.value) && IsInt64(t.timestamp)
  }

  predicate TxsInRange(txs: seq<Tx>) { forall i :: 0 <= i < |txs| ==> TxInRange(txs[i]) }

  /** The widths of the C fields. */
  predicate InRange(b: Block)
  {
    |b.id| == TXB_ID_LEN && |b.prev| == HASH_SIZE && IsInt64(b.timestamp) && IsUInt32(b.nonce) && TxsInRange(b.txs)
  }

  /** Field lengths only: what the byte offsets depend on. */
  predicate Shaped(b: Block)
  {
    |b.id| == TXB_ID_LEN && |b.prev| == HASH_SIZE && forall i :: 0 <= i < |b.txs| ==> |b.txs[i].id| == TX_ID_LEN
  }

  // ---------------------------------------------------------------- little-endian integers

  function Pow256(k: nat): (p: nat)
    ensures p >= 1
  {
    if k == 0 then 1 else 256 * Pow256(k - 1)
  }

  /** The low `k` bytes of `n` in two's complement, least significant first. */
  function LE(n: int, k: nat): (s: seq<Byte>)
    ensures |s| == k
    decreases k, n
  {
    if k == 0 then [] else [n % 256] + LE(n / 256, k - 1)
  }

  function FromLE(s: seq<Byte>): (n: nat)
  {
    if s == [] then 0 else s[0] + 256 * FromLE(s[1..])
  }

  function Signed(u: nat, k: nat): (n: int)
  {
    if 2 * u < Pow256(k) then u else u - Pow256(k)
  }

  lemma {:induction false} FromLEOfLE(n: nat, k: nat)
    requires n < Pow256(k)
    ensures FromLE(LE(n, k)) == n
  {
    if k > 0 {
      FromLEOfLE(n / 256, k - 1);
      assert LE(n, k)[1..] == LE(n / 256, k - 1);
    }
  }

  /** Least significant first: byte `i` is the one worth `256^i`. */
  lemma {:induction false} LEByte(n: int, k: nat, i: nat)
    requires i < k
    ensures LE(n, k)[i] == (n / Pow256(i)) % 256
    decreases k
  {
    if i == 0 {
      assert Pow256(0) == 1;
    } else {
      LEByte(n / 256, k - 1, i - 1);
      DivTwice(n, Pow256(i - 1));
    }
  }

  lemma DivTwice(n: int, p: nat)
    requires p >= 1
    ensures (n / 256) / p == n / (256 * p)
  {
    var q, r := n / 256, n % 256;
    var a, b := q / p, q % p;
    assert n == 256 * q + r && q == p * a + b;
    QuotientIs(n, 256 * p, a, 256 * b + r);
  }

  lemma QuotientIs(n: int, d: nat, a: int, rest: int)
    requires d > 0 && n == d * a + rest && 0 <= rest < d
    ensures n / d == a
  {
    var q := n / d;
    assert d * (q - a) == rest - n % d;
    OnlyZeroMultiple(d, q - a);
  }

  lemma OnlyZeroMultiple(d: int, x: int)
    requires d > 0 && -d < d * x < d
    ensures x == 0
  {
  }

  /** Bytes are the bytes of the number they read as. */
  lemma {:induction false} LEOfFromLE(s: seq<Byte>)
    ensures FromLE(s) < Pow256(|s|) && LE(FromLE(s), |s|) == s
  {
    if s != [] {
      LEOfFromLE(s[1..]);
      assert FromLE(s) % 256 == s[0] && FromLE(s) / 256 == FromLE(s[1..]);
    }
  }

  lemma LEOfSigned(s: seq<Byte>)
    ensures LE(Signed(FromLE(s), |s|), |s|) == s
  {
    LEOfFromLE(s);
    SignedIsSame(FromLE(s), |s|);
  }

  lemma SignedIsSame(u: nat, k: nat)
    ensures LE(Signed(u, k), k) == LE(u, k)
  {
    if 2 * u >= Pow256(k) {
      LEWraps(u - Pow256(k), k);
    }
  }

  lemma {:induction false} LEWraps(n: int, k: nat)
    ensures LE(n, k) == LE(n + Pow256(k), k)
    decreases k
  {
    if k > 0 {
      var q := Pow256(k - 1);
      assert (n + 256 * q) / 256 == n / 256 + q && (n + 256 * q) % 256 == n % 256;
      LEWraps(n / 256, k - 1);
    }
  }

  lemma SignedRoundTrip(n: int, k: nat)
    requires 0 <= 2 * n + Pow256(k) && 2 * n < Pow256(k)
    ensures Signed(FromLE(LE(n, k)), k) == n
  {
    if n >= 0 {
      FromLEOfLE(n, k);
    } else {
      LEWraps(n, k);
      FromLEOfLE(n + Pow256(k), k);
    }
  }

  lemma WidthValues()
    ensures Pow256(4) == 0x1_0000_0000 && Pow256(8) == 0x1_0000_0000_0000_0000
  {
    assert Pow256(2) == 0x1_0000;
    assert Pow256(6) == 0x1_0000 * Pow256(4);
  }

  // ---------------------------------------------------------------- transactions

  /** The 80 bytes of one `Transaction`. */
  function EncodeTx(t: Tx): (s: seq<Byte>)
    ensures |t.id| == TX_ID_LEN ==> |s| == TX_SIZE
  {
    t.id + LE(t.reward, 4) + LE(t.value, 4) + LE(t.timestamp, 8)
  }

  function DecodeTx(s: seq<Byte>): (t: Tx)
    requires |s| == TX_SIZE
  {
    Tx(s[..64], Signed(FromLE(s[64..68]), 4), FromLE(s[68..72]), Signed(FromLE(s[72..80]), 8))
  }

  lemma TxRoundTrip(t: Tx)
    requires TxInRange(t)
    ensures DecodeTx(EncodeTx(t)) == t
  {
    WidthValues();
    SignedRoundTrip(t.reward, 4);
    FromLEOfLE(t.value, 4);
    SignedRoundTrip(t.timestamp, 8);
    FourParts(t.id, LE(t.reward, 4), LE(t.value, 4), LE(t.timestamp, 8));
  }

  lemma FourParts(a: seq<Byte>, b: seq<Byte>, c: seq<Byte>, d: seq<Byte>)
    ensures var s, i, j := a + b + c + d, |a| + |b|, |a| + |b| + |c|;
            s[..|a|] == a && s[|a|..i] == b && s[i..j] == c && s[j..j + |d|] == d
  {
  }

  function EncodeTxs(txs: seq<Tx>): (s: seq<Byte>)
  {
    if txs == [] then [] else EncodeTx(txs[0]) + EncodeTxs(txs[1..])
  }

  function DecodeTxs(s: seq<Byte>, count: nat): (txs: seq<Tx>)
    requires |s| == TX_SIZE * count
    ensures |txs| == count
  {
    if count == 0 then [] else [DecodeTx(s[..TX_SIZE])] + DecodeTxs(s[TX_SIZE..], count - 1)
  }

  /** Where the fields of a transaction lie in its 80 bytes. */
  lemma TxFields(t: Tx)
    requires |t.id| == TX_ID_LEN
    ensures var s := EncodeTx(t);
            && |s| == TX_SIZE && s[..64] == t.id && s[64..68] == LE(t.reward, 4)
            && s[68..72] == LE(t.value, 4) && s[72..80] == LE(t.timestamp, 8)
  {
    FourParts(t.id, LE(t.reward, 4), LE(t.value, 4), LE(t.timestamp, 8));
  }

  /** Eighty bytes are the bytes of the transaction they read as. */
  lemma BytesOfTx(s: seq<Byte>)
    requires |s| == TX_SIZE
    ensures |DecodeTx(s).id| == TX_ID_LEN && EncodeTx(DecodeTx(s)) == s
  {
    LEOfSigned(s[64..68]);
    LEOfFromLE(s[68..72]);
    LEOfSigned(s[72..80]);
    assert s == s[..64] + s[64..68] + s[68..72] + s[72..80];
  }

  lemma {:induction false} BytesOfTxs(s: seq<Byte>, count: nat)
    requires |s| == TX_SIZE * count
    ensures EncodeTxs(DecodeTxs(s, count)) == s
    ensures forall i :: 0 <= i < count ==> |DecodeTxs(s, count)[i].id| == TX_ID_LEN
  {
    if count > 0 {
      var head, tail := DecodeTx(s[..TX_SIZE]), DecodeTxs(s[TX_SIZE..], count - 1);
      BytesOfTx(s[..TX_SIZE]);
      BytesOfTxs(s[TX_SIZE..], count - 1);
      EncodeHead(head, tail);
      assert s == s[..TX_SIZE] + s[TX_SIZE..];
    }
  }

  lemma EncodeHead(head: Tx, tail: seq<Tx>)
    ensures EncodeTxs([head] + tail) == EncodeTx(head) + EncodeTxs(tail)
  {
    assert ([head] + tail)[1..] == tail;
  }

  lemma {:induction false} EncodeTxsSize(txs: seq<Tx>)
    requires forall i :: 0 <= i < |txs| ==> |txs[i].id| == TX_ID_LEN
    ensures |EncodeTxs(txs)| == TX_SIZE * |txs|
  {
    if txs != [] {
      EncodeTxsSize(txs[1..]);
    }
  }

  lemma {:induction false} EncodeTxsSnoc(txs: seq<Tx>, t: Tx)
    ensures EncodeTxs(txs + [t]) == EncodeTxs(txs) + EncodeTx(t)
  {
    if txs == [] {
      assert EncodeTxs([t]) == EncodeTx(t) + EncodeTxs([]);
    } else {
      assert (txs + [t])[1..] == txs[1..] + [t];
      EncodeTxsSnoc(txs[1..], t);
    }
  }

  lemma {:induction false} TxsRoundTrip(txs: seq<Tx>)
    requires TxsInRange(txs)
    ensures |EncodeTxs(txs)| == TX_SIZE * |txs| && DecodeTxs(EncodeTxs(txs), |txs|) == txs
  {
    if txs != [] {
      TxRoundTrip(txs[0]);
      TxsRoundTrip(txs[1..]);
      DecodeHead(EncodeTx(txs[0]), EncodeTxs(txs[1..]), |txs| - 1);
      assert [txs[0]] + txs[1..] == txs;
    }
  }

  lemma DecodeHead(head: seq<Byte>, tail: seq<Byte>, count: nat)
    requires |head| == TX_SIZE && |tail| == TX_SIZE * count
    ensures DecodeTxs(head + tail, count + 1) == [DecodeTx(head)] + DecodeTxs(tail, count)
  {
    assert (head + tail)[..TX_SIZE] == head && (head + tail)[TX_SIZE..] == tail;
  }

  lemma Slice(pre: seq<Byte>, mid: seq<Byte>, post: seq<Byte>)
    ensures (pre + mid + post)[|pre|..|pre| + |mid|] == mid
    ensures (pre + mid + post)[|pre|..] == mid + post
  {
  }

  /** Where the parts of a concatenation lie. */
  lemma Parts(a: seq<Byte>, b: seq<Byte>, c: seq<Byte>, d: seq<Byte>, e: seq<Byte>)
    ensures var s, i, j, k := a + b + c + d + e, |a| + |b|, |a| + |b| + |c|, |a| + |b| + |c| + |d|;
            && |s| == k + |e| && s[..|a|] == a && s[|a|..i] == b && s[i..j] == c && s[j..k] == d && s[k..] == e
  {
    var s := a + b + c + d + e;
    assert s == a + b + (c + d + e) && s == a + b + c + (d + e);
    Slice(a, b, c + d + e);
    Slice(a + b, c, d + e);
    Slice(a + b + c, d, e);
    Slice(a + b + c + d, e, []);
  }

  lemma Regroup(a: seq<Byte>, b: seq<Byte>, c: seq<Byte>)
    ensures a + b + c == a + (b + c)
  {
  }

  lemma TailParts(s: seq<Byte>, k: nat, e: seq<Byte>, f: seq<Byte>)
    requires k <= |s| && s[k..] == e + f
    ensures k + |e| <= |s| && s[k..k + |e|] == e && s[k + |e|..] == f
  {
    assert s[k..k + |e|] == s[k..][..|e|] && s[k + |e|..] == s[k..][|e|..];
  }

  lemma SixParts(a: seq<Byte>, b: seq<Byte>, c: seq<Byte>, d: seq<Byte>, e: seq<Byte>, f: seq<Byte>)
    ensures var s, i, j := a + b + c + d + e + f, |a| + |b|, |a| + |b| + |c|;
            var k, l := j + |d|, j + |d| + |e|;
            && |s| == l + |f| && s[..|a|] == a && s[|a|..i] == b && s[i..j] == c && s[j..k] == d
            && s[k..l] == e && s[l..] == f
  {
    Regroup(a + b + c + d, e, f);
    Parts(a, b, c, d, e + f);
    TailParts(a + b + c + d + e + f, |a| + |b| + |c| + |d|, e, f);
  }

  // ---------------------------------------------------------------- the hashed serialisation

  function SerializedSize(txsPerBlock: nat): (n: nat) { HEADER_SIZE + TX_SIZE * txsPerBlock }

  /** Field order of the hash input: the nonce comes after the transactions. */
  function Serialize(b: Block): (s: seq<Byte>)
  {
    b.id + b.prev + LE(b.timestamp, 8) + EncodeTxs(b.txs) + LE(b.nonce, 4)
  }

  lemma SerializeFields(b: Block)
    requires Shaped(b)
    ensures var s, n := Serialize(b), TX_SIZE * |b.txs|;
            && |s| == SerializedSize(|b.txs|)
            && s[..64] == b.id && s[64..129] == b.prev && s[129..137] == LE(b.timestamp, 8)
            && s[137..137 + n] == EncodeTxs(b.txs) && s[137 + n..] == LE(b.nonce, 4)
  {
    EncodeTxsSize(b.txs);
    Parts(b.id, b.prev, LE(b.timestamp, 8), EncodeTxs(b.txs), LE(b.nonce, 4));
  }

  /** Blocks of equally many transactions with the same serialisation are the same block. */
  lemma SerializeInjective(a: Block, b: Block)
    requires InRange(a) && InRange(b) && |a.txs| == |b.txs|
    requires Serialize(a) == Serialize(b)
    ensures a == b
  {
    SerializeFields(a);
    SerializeFields(b);
    WidthValues();
    SignedRoundTrip(a.timestamp, 8);
    SignedRoundTrip(b.timestamp, 8);
    FromLEOfLE(a.nonce, 4);
    FromLEOfLE(b.nonce, 4);
    TxsRoundTrip(a.txs);
    TxsRoundTrip(b.txs);
  }

  // ---------------------------------------------------------------- the pipe frame

  function FrameSize(txsPerBlock: nat): (n: nat) { PREFIX_SIZE + HEADER_SIZE + TX_SIZE * txsPerBlock }

  /** Field order of the frame: size prefix, the packed header with the nonce, then the transactions. */
  function Frame(b: Block): (s: seq<Byte>)
  {
    LE(SerializedSize(|b.txs|), 8) + b.id + b.prev + LE(b.timestamp, 8) + LE(b.nonce, 4) + EncodeTxs(b.txs)
  }

  datatype ReadResult =
    | TooSmall        // shorter than the size prefix
    | SizeMismatch    // the prefix does not match what was read
    | Uninitialised   // sizes agree but the payload is shorter than a block
    | Parsed(block: Block)

  /** What the validator makes of one `read` of at most `FrameSize(txsPerBlock)` bytes. */
  function ParseFrame(buf: seq<Byte>, txsPerBlock: nat): (r: ReadResult)
  {
    if |buf| < PREFIX_SIZE then TooSmall
    else if |buf| != PREFIX_SIZE + FromLE(buf[..8]) then SizeMismatch
    else if |buf| != FrameSize(txsPerBlock) then Uninitialised
    else
      Parsed(Block(buf[8..72], buf[72..137], Signed(FromLE(buf[137..145]), 8), FromLE(buf[145..149]),
                   DecodeTxs(buf[149..], txsPerBlock)))
  }

  lemma FrameFields(b: Block)
    requires Shaped(b)
    ensures var s := Frame(b);
            && |s| == FrameSize(|b.txs|)
            && s[..8] == LE(SerializedSize(|b.txs|), 8) && s[8..72] == b.id && s[72..137] == b.prev
            && s[137..145] == LE(b.timestamp, 8) && s[145..149] == LE(b.nonce, 4) && s[149..] == EncodeTxs(b.txs)
  {
    EncodeTxsSize(b.txs);
    SixParts(LE(SerializedSize(|b.txs|), 8), b.id, b.prev, LE(b.timestamp, 8), LE(b.nonce, 4), EncodeTxs(b.txs));
  }

  /** Parsing a frame gives the block that was framed; the number of transactions is configured through `atoi`. */
  lemma FrameRoundTrip(b: Block)
    requires InRange(b) && |b.txs| <= INT_MAX
    ensures |Frame(b)| == FrameSize(|b.txs|)
    ensures ParseFrame(Frame(b), |b.txs|) == Parsed(b)
  {
    FrameFields(b);
    WidthValues();
    FromLEOfLE(SerializedSize(|b.txs|), 8);
    SignedRoundTrip(b.timestamp, 8);
    FromLEOfLE(b.nonce, 4);
    TxsRoundTrip(b.txs);
  }

  /**
   What parses is a frame: the only bytes that a validator takes for a block are those that a miner would write for it,
   and it takes every string of the right length with the right prefix.
   */
  lemma ParsedIsFrame(buf: seq<Byte>, txsPerBlock: nat)
    requires txsPerBlock <= INT_MAX
    ensures ParseFrame(buf, txsPerBlock).Parsed? <==>
            |buf| == FrameSize(txsPerBlock) && FromLE(buf[..8]) == SerializedSize(txsPerBlock)
    ensures ParseFrame(buf, txsPerBlock).Parsed? ==> buf == Frame(ParseFrame(buf, txsPerBlock).block)
  {
    if |buf| == FrameSize(txsPerBlock) && FromLE(buf[..8]) == SerializedSize(txsPerBlock) {
      LEOfFromLE(buf[..8]);
      LEOfSigned(buf[137..145]);
      LEOfFromLE(buf[145..149]);
      BytesOfTxs(buf[149..], txsPerBlock);
      Rejoin(buf);
    }
  }

  lemma Rejoin(buf: seq<Byte>)
    requires |buf| >= 149
    ensures buf == buf[..8] + buf[8..72] + buf[72..137] + buf[137..145] + buf[145..149] + buf[149..]
  {
  }

  // ---------------------------------------------------------------- exactly which blocks survive

  lemma {:induction false} FromLEBound(s: seq<Byte>)
    ensures FromLE(s) < Pow256(|s|)
  {
    if s != [] {
      FromLEBound(s[1..]);
    }
  }

  /** Whatever the bytes, the numbers read from them fit their fields. */
  lemma DecodedTxInRange(s: seq<Byte>)
    requires |s| == TX_SIZE
    ensures TxInRange(DecodeTx(s))
  {
    WidthValues();
    FromLEBound(s[64..68]);
    FromLEBound(s[68..72]);
    FromLEBound(s[72..80]);
  }

  lemma {:induction false} DecodedTxsInRange(s: seq<Byte>, count: nat)
    requires |s| == TX_SIZE * count
    ensures TxsInRange(DecodeTxs(s, count))
  {
    if count > 0 {
      DecodedTxInRange(s[..TX_SIZE]);
      DecodedTxsInRange(s[TX_SIZE..], count - 1);
    }
  }

  lemma ParsedInRange(buf: seq<Byte>, txsPerBlock: nat)
    requires ParseFrame(buf, txsPerBlock).Parsed?
    ensures InRange(ParseFrame(buf, txsPerBlock).block)
  {
    WidthValues();
    FromLEBound(buf[137..145]);
    FromLEBound(buf[145..149]);
    DecodedTxsInRange(buf[149..], txsPerBlock);
  }

  /** A block comes out of the pipe as it went in exactly when its numbers fit their C fields. */
  lemma FrameRoundTripExactly(b: Block)
    requires Shaped(b) && |b.txs| <= INT_MAX
    ensures ParseFrame(Frame(b), |b.txs|) == Parsed(b) <==> InRange(b)
  {
    if InRange(b) {
      FrameRoundTrip(b);
    } else if ParseFrame(Frame(b), |b.txs|) == Parsed(b) {
      ParsedInRange(Frame(b), |b.txs|);
    }
  }
}
