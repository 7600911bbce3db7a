/**
 C character buffers as the sources use them: zero-terminated prefixes, `strcpy`, `strncpy`,
 `snprintf("%d")`, `sscanf("%d")` and `atoi`, on buffers of bytes.
 */
module CStrings {

  type Byte = x: int | 0 <= x < 256

  datatype Option<+T> = None | Some(value: T)

  const NUL: Byte := 0
  const DASH: Byte := '-' as int
  const ZERO: Byte := '0' as int

  // ---------------------------------------------------------------- buffers

  /** What `memset(p, 0, n)` or `calloc` leaves. */
  function Zeros(n: nat): (z: seq<Byte>)
  {
    seq(n, _ => NUL)
  }

  /** The string a buffer holds: everything before its first NUL. */
  function CStr(buf: seq<Byte>): (s: seq<Byte>)
    ensures |s| <= |buf| && NUL !in s
  {
    if buf == [] || buf[0] == NUL then [] else [buf[0]] + CStr(buf[1..])
  }

  function Pad(s: seq<Byte>, n: nat): (buf: seq<Byte>)
    requires |s| <= n
    ensures |buf| == n
  {
    s + Zeros(n - |s|)
  }

  /** A terminated buffer whose bytes after the terminator are all zero. */
  predicate Canonical(buf: seq<Byte>)
  {
    |CStr(buf)| < |buf| && buf == Pad(CStr(buf), |buf|)
  }

  /** `strncpy(dst, src, n)`: stops at the terminator of `src` and zero-fills the rest. */
  function StrNCpy(src: seq<Byte>, n: nat): (dst: seq<Byte>)
    ensures |dst| == n
  {
    if |CStr(src)| >= n then CStr(src)[..n] else Pad(CStr(src), n)
  }

  /** `strcpy(dst, src)`: leaves the bytes of `dst` after the copied terminator alone. */
  function StrCpy(dst: seq<Byte>, src: seq<Byte>): (res: seq<Byte>)
    requires |CStr(src)| < |dst|
    ensures |res| == |dst|
  {
    CStr(src) + [NUL] + dst[|CStr(src)| + 1..]
  }

  /** `snprintf(dst, n, "%s", s)` into a zeroed buffer. */
  function SnPrint(s: seq<Byte>, n: nat): (dst: seq<Byte>)
    requires n > 0
    ensures |dst| == n
  {
    if |s| < n then Pad(s, n) else s[..n - 1] + [NUL]
  }

  lemma {:induction false} CStrOfPrefix(s: seq<Byte>, rest: seq<Byte>)
    requires NUL !in s && (rest == [] || rest[0] == NUL)
    ensures CStr(s + rest) == s
  {
    if s == [] {
      assert s + rest == rest;
    } else {
      assert (s + rest)[1..] == s[1..] + rest;
      CStrOfPrefix(s[1..], rest);
    }
  }

  lemma CStrOfPad(s: seq<Byte>, n: nat)
    requires NUL !in s && |s| <= n
    ensures CStr(Pad(s, n)) == s
    ensures |s| < n ==> Canonical(Pad(s, n))
  {
    CStrOfPrefix(s, Zeros(n - |s|));
  }

  lemma CStrOfZeros(n: nat)
    ensures CStr(Zeros(n)) == []
    ensures n > 0 ==> Canonical(Zeros(n))
  {
    CStrOfPad([], n);
    assert Pad([], n) == Zeros(n);
  }

  /** `strcpy` into zeroed memory reproduces a canonical buffer byte for byte. */
  lemma StrCpyIntoZeros(src: seq<Byte>)
    requires Canonical(src)
    ensures StrCpy(Zeros(|src|), src) == src
  {
  }

  lemma StrNCpyCanonical(src: seq<Byte>, n: nat)
    requires |CStr(src)| < n
    ensures Canonical(StrNCpy(src, n)) && CStr(StrNCpy(src, n)) == CStr(src)
  {
    CStrOfPad(CStr(src), n);
  }

  lemma StrNCpyTwice(src: seq<Byte>, n: nat)
    ensures StrNCpy(StrNCpy(src, n), n) == StrNCpy(src, n)
  {
    if |CStr(src)| >= n {
      CStrOfPrefix(CStr(src)[..n], []);
      assert CStr(src)[..n] + [] == CStr(src)[..n];
    } else {
      CStrOfPad(CStr(src), n);
    }
  }

  // ---------------------------------------------------------------- decimal numbers

  predicate IsDigit(b: Byte) { ZERO <= b <= ZERO + 9 }

  predicate AllDigits(s: seq<Byte>) { forall i :: 0 <= i < |s| ==> IsDigit(s[i]) }

  /** `%d` of a non-negative number. */
  function Dec(n: nat): (s: seq<Byte>)
    ensures |s| >= 1 && AllDigits(s) && NUL !in s
  {
    if n < 10 then [ZERO + n] else Dec(n / 10) + [ZERO + n % 10]
  }

  function DigitsValue(s: seq<Byte>): (v: nat)
    requires AllDigits(s)
  {
    if s == [] then 0 else DigitsValue(s[..|s| - 1]) * 10 + (s[|s| - 1] - ZERO)
  }

  function Pow10(k: nat): (p: nat)
    ensures p >= 1
  {
    if k == 0 then 1 else 10 * Pow10(k - 1)
  }

  lemma {:induction false} ValueOfDec(n: nat)
    ensures DigitsValue(Dec(n)) == n
  {
    if n < 10 {
      assert Dec(n)[..0] == [];
    } else {
      ValueOfDec(n / 10);
      assert Dec(n)[..|Dec(n)| - 1] == Dec(n / 10);
    }
  }

  lemma {:induction false} LengthOfDec(n: nat, k: nat)
    requires k >= 1
    ensures |Dec(n)| <= k <==> n < Pow10(k)
  {
    if n >= 10 && k > 1 {
      LengthOfDec(n / 10, k - 1);
    } else if k == 1 {
      assert Pow10(1) == 10;
    } else {
      LengthOfDec(n, k - 1);
    }
  }

  /** The first `k` digits of a longer number are themselves the print of a smaller number of exactly `k` digits. */
  lemma {:induction false} LeadingDigits(n: nat, k: nat) returns (m: nat)
    requires k >= 1 && |Dec(n)| > k
    ensures Dec(n)[..k] == Dec(m) && m < n && Pow10(k - 1) <= m < Pow10(k)
  {
    assert n >= 10;
    assert Dec(n)[..k] == Dec(n / 10)[..k];
    if |Dec(n / 10)| == k {
      m := n / 10;
      LengthOfDec(m, k);
      if k > 1 {
        LengthOfDec(m, k - 1);
      }
    } else {
      m := LeadingDigits(n / 10, k);
    }
  }

  function DigitRun(s: seq<Byte>): (d: seq<Byte>)
    ensures |d| <= |s| && d == s[..|d|] && AllDigits(d)
    ensures |d| < |s| ==> !IsDigit(s[|d|])
  {
    if s == [] || !IsDigit(s[0]) then [] else [s[0]] + DigitRun(s[1..])
  }

  predicate IsSpace(b: Byte) { b == 32 || 9 <= b <= 13 }

  function SkipSpaces(s: seq<Byte>): (r: seq<Byte>)
    ensures r == [] || !IsSpace(r[0])
  {
    if s == [] || !IsSpace(s[0]) then s else SkipSpaces(s[1..])
  }

  /** One `%d` conversion: blanks, an optional sign, at least one digit. */
  function ScanInt(s: seq<Byte>): (r: Option<int>)
  {
    var t := SkipSpaces(s);
    var negative := t != [] && t[0] == DASH;
    var signed := negative || (t != [] && t[0] == '+' as int);
    var digits := DigitRun(if signed then t[1..] else t);
    var magnitude: int := DigitsValue(digits);
    if digits == [] then None else Some(if negative then -magnitude else magnitude)
  }

  /** `atoi`: 0 when there is no number. */
  function Atoi(s: seq<Byte>): (n: int)
  {
    match ScanInt(s) case Some(v) => v case None => 0
  }

  lemma {:induction false} DigitRunOf(d: seq<Byte>, rest: seq<Byte>)
    requires AllDigits(d) && (rest == [] || !IsDigit(rest[0]))
    ensures DigitRun(d + rest) == d
  {
    if d == [] {
      assert d + rest == rest;
    } else {
      assert (d + rest)[1..] == d[1..] + rest;
      DigitRunOf(d[1..], rest);
    }
  }

  /** Scanning what was printed gives the number back. */
  lemma ScanOfDec(n: nat, rest: seq<Byte>)
    requires rest == [] || !IsDigit(rest[0])
    ensures ScanInt(Dec(n) + rest) == Some(n)
  {
    var s := Dec(n) + rest;
    assert IsDigit(Dec(n)[0]) && s[0] == Dec(n)[0];
    assert SkipSpaces(s) == s;
    DigitRunOf(Dec(n), rest);
    ValueOfDec(n);
  }

  // ---------------------------------------------------------------- identifiers

  /** "TX-" */
  const TX_PREFIX: seq<Byte> := ['T' as int, 'X' as int, DASH]
  /** "BLOCK-" */
  const BLOCK_PREFIX: seq<Byte> := ['B' as int, 'L' as int, 'O' as int, 'C' as int, 'K' as int, DASH]

  const INT_MAX: nat := 0x7FFF_FFFF

  /** "TX-<pid>-<n>" */
  function TxName(pid: nat, n: nat): (s: seq<Byte>)
    ensures NUL !in s
  {
    TX_PREFIX + Dec(pid) + [DASH] + Dec(n)
  }

  /** "BLOCK-<thread>-<number>" */
  function BlockName(thread: nat, number: nat): (s: seq<Byte>)
    ensures NUL !in s
  {
    BLOCK_PREFIX + Dec(thread) + [DASH] + Dec(number)
  }

  lemma DropPrefix(p: seq<Byte>, s: seq<Byte>, s': seq<Byte>)
    requires p + s == p + s'
    ensures s == s'
  {
    assert s == (p + s)[|p|..] && s' == (p + s')[|p|..];
  }

  /** Two pairs of numbers printed with a dash between them agree only when both numbers agree. */
  lemma SplitAtDash(a: nat, b: nat, a': nat, b': nat)
    requires Dec(a) + ([DASH] + Dec(b)) == Dec(a') + ([DASH] + Dec(b'))
    ensures a == a' && b == b'
  {
    DigitRunOf(Dec(a), [DASH] + Dec(b));
    DigitRunOf(Dec(a'), [DASH] + Dec(b'));
    ValueOfDec(a);
    ValueOfDec(a');
    DropPrefix(Dec(a), [DASH] + Dec(b), [DASH] + Dec(b'));
    DropPrefix([DASH], Dec(b), Dec(b'));
    ValueOfDec(b);
    ValueOfDec(b');
  }

  /** Two printed pairs agree only when both numbers agree, so ids of different generators never clash. */
  lemma TxNameInjective(pid: nat, n: nat, pid': nat, n': nat)
    requires TxName(pid, n) == TxName(pid', n')
    ensures pid == pid' && n == n'
  {
    assert TxName(pid, n) == TX_PREFIX + (Dec(pid) + ([DASH] + Dec(n)));
    assert TxName(pid', n') == TX_PREFIX + (Dec(pid') + ([DASH] + Dec(n')));
    DropPrefix(TX_PREFIX, Dec(pid) + ([DASH] + Dec(n)), Dec(pid') + ([DASH] + Dec(n')));
    SplitAtDash(pid, n, pid', n');
  }

  lemma BlockIdHoldsName(thread: nat, number: nat)
    requires thread <= INT_MAX && number <= INT_MAX
    ensures CStr(BlockIdField(thread, number)) == BLOCK_PREFIX + (Dec(thread) + ([DASH] + Dec(number)))
  {
    PrintedIntLength(thread);
    PrintedIntLength(number);
    CStrOfPad(BlockName(thread, number), TXB_ID_LEN);
    assert BlockName(thread, number) == BLOCK_PREFIX + (Dec(thread) + ([DASH] + Dec(number)));
  }

  /** Block ids of different threads or numbers differ, as they sit in their fields. */
  lemma BlockIdsDiffer(thread: nat, number: nat, thread': nat, number': nat)
    requires thread <= INT_MAX && number <= INT_MAX && thread' <= INT_MAX && number' <= INT_MAX
    requires BlockIdField(thread, number) == BlockIdField(thread', number')
    ensures thread == thread' && number == number'
  {
    BlockIdHoldsName(thread, number);
    BlockIdHoldsName(thread', number');
    DropPrefix(BLOCK_PREFIX, Dec(thread) + ([DASH] + Dec(number)), Dec(thread') + ([DASH] + Dec(number')));
    SplitAtDash(thread, number, thread', number');
  }

  lemma PrintedIntLength(n: nat)
    requires n <= INT_MAX
    ensures |Dec(n)| <= 10
  {
    assert Pow10(10) == 10_000_000_000 by {
      assert Pow10(5) == 100_000;
      assert Pow10(8) == 100_000_000;
    }
    LengthOfDec(n, 10);
  }

  // ---------------------------------------------------------------- miner identity

  const MINER_ID_LEN := 7
  const TXB_ID_LEN := 64

  /**
   The validator's side: `sscanf(txb_id, "BLOCK-%d-")`, then `snprintf` into `miner_id[7]`, "-1" when nothing parses.
   */
  function MinerField(id: seq<Byte>): (field: seq<Byte>)
    ensures |field| == MINER_ID_LEN
  {
    match ParseThread(CStr(id))
    case Some(v) => SnPrint(if v < 0 then [DASH] + Dec(-v) else Dec(v), MINER_ID_LEN)
    case None => SnPrint([DASH, ZERO + 1], MINER_ID_LEN)
  }

  /** `sscanf(s, "BLOCK-%d-", &v) == 1` */
  function ParseThread(s: seq<Byte>): (v: Option<int>)
  {
    if BLOCK_PREFIX <= s then ScanInt(s[|BLOCK_PREFIX|..]) else None
  }

  /** The statistics side: `atoi(miner_id) - 1`. */
  function MinerIndex(field: seq<Byte>): (i: int)
  {
    Atoi(CStr(field)) - 1
  }

  /** The printed block id as it sits in a zeroed 64-byte field. */
  function BlockIdField(thread: nat, number: nat): (id: seq<Byte>)
    ensures |id| == TXB_ID_LEN
  {
    SnPrint(BlockName(thread, number), TXB_ID_LEN)
  }

  lemma BlockIdFieldPrefix(thread: nat, number: nat)
    requires thread <= INT_MAX
    ensures Canonical(BlockIdField(thread, number))
    ensures CStr(BlockIdField(thread, number)) <= BlockName(thread, number)
    ensures BLOCK_PREFIX + Dec(thread) + [DASH] <= CStr(BlockIdField(thread, number))
  {
    PrintedIntLength(thread);
    var s := BlockName(thread, number);
    var head := BLOCK_PREFIX + Dec(thread) + [DASH];
    assert |head| <= 17 && head == s[..|head|];
    if |s| < TXB_ID_LEN {
      CStrOfPad(s, TXB_ID_LEN);
    } else {
      CStrOfPrefix(s[..63], [NUL]);
      assert BlockIdField(thread, number) == Pad(s[..63], TXB_ID_LEN);
      assert s[..63][..|head|] == head;
    }
  }

  /** What the validator parses out of a miner's block id is the thread id that printed it. */
  lemma MinerFieldOfBlockId(thread: nat, number: nat)
    requires thread <= INT_MAX
    ensures MinerField(BlockIdField(thread, number)) == SnPrint(Dec(thread), MINER_ID_LEN)
  {
    BlockIdFieldPrefix(thread, number);
    var s := CStr(BlockIdField(thread, number));
    var rest := s[|BLOCK_PREFIX + Dec(thread)|..];
    assert rest[0] == DASH;
    assert s[|BLOCK_PREFIX|..] == Dec(thread) + rest;
    ScanOfDec(thread, rest);
  }

  /**
   Miner identity round trip: the statistics process credits counter `thread - 1` exactly when the thread id fits
   the six characters of `miner_id[7]`; beyond that a wrong counter is credited, still inside the array.
   */
  lemma MinerIdentityRoundTrip(thread: nat, number: nat)
    requires 1 <= thread <= INT_MAX
    ensures var i := MinerIndex(MinerField(BlockIdField(thread, number)));
            0 <= i < thread && (i == thread - 1 <==> thread <= 999_999)
  {
    MinerFieldOfBlockId(thread, number);
    var field := SnPrint(Dec(thread), MINER_ID_LEN);
    assert Pow10(6) == 1_000_000 && Pow10(5) == 100_000 by { assert Pow10(3) == 1000; }
    LengthOfDec(thread, 6);
    if thread <= 999_999 {
      CStrOfPad(Dec(thread), MINER_ID_LEN);
      ScanOfDec(thread, []);
      assert Dec(thread) + [] == Dec(thread);
    } else {
      var m := LeadingDigits(thread, 6);
      CStrOfPrefix(Dec(m), [NUL]);
      ScanOfDec(m, []);
      assert Dec(m) + [] == Dec(m);
      assert CStr(field) == Dec(m);
    }
  }
}
