/** Addresses, prefixes and allowlist entries. Instants are nanoseconds on an integer axis. */
module Entries {
  import opened Wrappers

  const SECOND: int := 1_000_000_000

  type Time = int

  datatype Family = Ip4 | Ip6 {
    function Width(): nat { if Ip4? then 32 else 128 }
  }

  datatype Addr = Addr(family: Family, bits: nat)

  function Pow2(n: nat): (r: nat)
    ensures r > 0
  {
    if n == 0 then 1 else 2 * Pow2(n - 1)
  }

  /** `bits` without its `n` low bits. */
  function Shift(bits: nat, n: nat): nat
    decreases n
  {
    if n == 0 then bits else Shift(bits / 2, n - 1)
  }

  /** A prefix as stored: host bits are kept, `Contains` ignores them. */
  datatype Net = Net(addr: Addr, len: nat) {
    predicate IsValid() { len <= addr.family.Width() && addr.bits < Pow2(addr.family.Width()) }

    function HostBits(): nat { if len <= addr.family.Width() then addr.family.Width() - len else 0 }

    predicate Contains(a: Addr) {
      && a.family == addr.family
      && len <= addr.family.Width()
      && Shift(a.bits, HostBits()) == Shift(addr.bits, HostBits())
    }
  }

  lemma {:induction false} EightTwos(n: nat)
    ensures Pow2(n + 8) == 256 * Pow2(n)
  {
    assert Pow2(n + 8) == 2 * Pow2(n + 7) == 4 * Pow2(n + 6) == 8 * Pow2(n + 5);
    assert Pow2(n + 5) == 2 * Pow2(n + 4) == 4 * Pow2(n + 3) == 8 * Pow2(n + 2);
    assert Pow2(n + 2) == 2 * Pow2(n + 1) == 4 * Pow2(n);
  }

  lemma {:induction false} ThirtyTwoTwos(n: nat)
    ensures Pow2(n + 32) == 0x1_0000_0000 * Pow2(n)
  {
    EightTwos(n + 24);
    EightTwos(n + 16);
    EightTwos(n + 8);
    EightTwos(n);
  }

  /** Thirty-two or 128 bits, and a length of at most as many. */
  lemma {:induction false} ValidMeans(n: Net)
    ensures n.IsValid() <==>
      if n.addr.family == Ip4 then n.len <= 32 && n.addr.bits < 0x1_0000_0000
      else n.len <= 128 && n.addr.bits < 0x1_0000_0000_0000_0000_0000_0000_0000_0000
  {
    ThirtyTwoTwos(0);
    ThirtyTwoTwos(32);
    ThirtyTwoTwos(64);
    ThirtyTwoTwos(96);
  }

  /** Eight bits at once. */
  lemma {:induction false} ShiftByte(bits: nat, n: nat)
    ensures Shift(bits, n + 8) == Shift(bits / 256, n)
  {
    assert Shift(bits, n + 8) == Shift(bits / 2, n + 7) == Shift(bits / 2 / 2, n + 6) == Shift(bits / 4 / 2, n + 5);
    assert Shift(bits / 8, n + 5) == Shift(bits / 8 / 2, n + 4) == Shift(bits / 16 / 2, n + 3);
    assert Shift(bits / 32, n + 3) == Shift(bits / 32 / 2, n + 2) == Shift(bits / 64 / 2, n + 1);
    assert Shift(bits / 128, n + 1) == Shift(bits / 128 / 2, n);
  }

  lemma {:induction false} TwoShifts(bits: nat, n: nat)
    ensures Shift(bits, n + 16) == Shift(bits / 0x1_0000, n)
  {
    ShiftByte(bits, n + 8);
    ShiftByte(bits / 0x100, n);
    assert bits / 0x100 / 0x100 == bits / 0x1_0000;
  }

  lemma {:induction false} FourShifts(bits: nat, n: nat)
    ensures Shift(bits, n + 32) == Shift(bits / 0x1_0000_0000, n)
  {
    TwoShifts(bits, n + 16);
    TwoShifts(bits / 0x1_0000, n);
    assert bits / 0x1_0000 / 0x1_0000 == bits / 0x1_0000_0000;
  }

  lemma {:induction false} ShiftBytes(bits: nat)
    ensures Shift(bits, 8) == bits / 0x100 && Shift(bits, 16) == bits / 0x1_0000 && Shift(bits, 24) == bits / 0x100_0000
  {
    ShiftByte(bits, 0);
    TwoShifts(bits, 0);
    TwoShifts(bits, 8);
    ShiftByte(bits / 0x1_0000, 0);
    assert bits / 0x1_0000 / 0x100 == bits / 0x100_0000;
  }

  lemma {:induction false} EightShifts(bits: nat)
    ensures Shift(bits, 64) == bits / 0x1_0000_0000_0000_0000
  {
    FourShifts(bits, 32);
    FourShifts(bits / 0x1_0000_0000, 0);
    assert bits / 0x1_0000_0000 / 0x1_0000_0000 == bits / 0x1_0000_0000_0000_0000;
  }

  /** A prefix contains the addresses of its family that agree with its own in all but the low bits: for whole
      bytes, and a /64, that is equality of the quotients. */
  lemma {:induction false} ContainsMeans(n: Net, a: Addr)
    requires n.IsValid()
    ensures n.Contains(a) ==> a.family == n.addr.family
    ensures a.family == n.addr.family == Ip4 ==>
      && (n.len == 32 ==> (n.Contains(a) <==> a.bits == n.addr.bits))
      && (n.len == 24 ==> (n.Contains(a) <==> a.bits / 0x100 == n.addr.bits / 0x100))
      && (n.len == 16 ==> (n.Contains(a) <==> a.bits / 0x1_0000 == n.addr.bits / 0x1_0000))
      && (n.len == 8 ==> (n.Contains(a) <==> a.bits / 0x100_0000 == n.addr.bits / 0x100_0000))
    ensures a.family == n.addr.family == Ip6 ==>
      && (n.len == 128 ==> (n.Contains(a) <==> a.bits == n.addr.bits))
      && (n.len == 64 ==> (n.Contains(a) <==> a.bits / 0x1_0000_0000_0000_0000 == n.addr.bits / 0x1_0000_0000_0000_0000))
  {
    ShiftBytes(a.bits);
    ShiftBytes(n.addr.bits);
    EightShifts(a.bits);
    EightShifts(n.addr.bits);
  }

  /** And a prefix one bit shorter, those that agree after one more halving. */
  lemma {:induction false} ShorterByOne(n: Net, a: Addr)
    requires 0 < n.len <= n.addr.family.Width() && a.family == n.addr.family
    ensures
      Net(n.addr, n.len - 1).Contains(a) <==>
        Shift(a.bits / 2, n.HostBits()) == Shift(n.addr.bits / 2, n.HostBits())
    ensures n.Contains(a) ==> Net(n.addr, n.len - 1).Contains(a)
  {
    if n.Contains(a) { HalfAgrees(a.bits, n.addr.bits, n.HostBits()); }
  }

  lemma {:induction false} HalfAgrees(a: nat, b: nat, k: nat)
    requires Shift(a, k) == Shift(b, k)
    ensures Shift(a / 2, k) == Shift(b / 2, k)
    decreases k
  {
    if k > 0 { HalfAgrees(a / 2, b / 2, k - 1); }
  }

  /** `bits` with its `n` low bits cleared. */
  function ClearLow(bits: nat, n: nat): nat
    decreases n
  {
    if n == 0 then bits else 2 * ClearLow(bits / 2, n - 1)
  }

  /** The form in which the kernel keeps and lists a prefix. */
  function Mask(n: Net): Net {
    Net(Addr(n.addr.family, ClearLow(n.addr.bits, n.HostBits())), n.len)
  }

  /** The form in which the kernel lists an element. */
  predicate NoHostBits(n: Net) { Mask(n) == n }

  lemma {:induction false} ClearLowIdempotent(bits: nat, n: nat)
    ensures ClearLow(ClearLow(bits, n), n) == ClearLow(bits, n)
    decreases n
  {
    if n > 0 {
      ClearLowIdempotent(bits / 2, n - 1);
      assert 2 * ClearLow(bits / 2, n - 1) / 2 == ClearLow(bits / 2, n - 1);
    }
  }

  lemma MaskIdempotent(n: Net)
    ensures NoHostBits(Mask(n))
  {
    ClearLowIdempotent(n.addr.bits, n.HostBits());
  }

  lemma {:induction false} ClearedShifts(bits: nat, n: nat)
    ensures Shift(ClearLow(bits, n), n) == Shift(bits, n)
    decreases n
  {
    if n > 0 {
      ClearedShifts(bits / 2, n - 1);
      assert 2 * ClearLow(bits / 2, n - 1) / 2 == ClearLow(bits / 2, n - 1);
    }
  }

  /** Masking changes no membership. */
  lemma MaskContains(n: Net, a: Addr)
    ensures Mask(n).Contains(a) <==> n.Contains(a)
  {
    ClearedShifts(n.addr.bits, n.HostBits());
  }

  datatype Entry = Entry(id: nat, target: Net, expiresAt: Option<Time>) {
    predicate IsExpired(now: Time) { expiresAt.Some? && expiresAt.value <= now }
  }

  /** Targets of the entries that are not expired at `now`. */
  function LiveTargets(entries: seq<Entry>, now: Time): set<Net> {
    set e | e in entries && !e.IsExpired(now) :: e.target
  }

  /** `Store::prune_expired`: the entries that stay, in order. */
  function Unexpired(entries: seq<Entry>, now: Time): (r: seq<Entry>)
    ensures forall e :: e in r <==> e in entries && !e.IsExpired(now)
  {
    Filter(entries, (e: Entry) => !e.IsExpired(now))
  }

  /** `Store::revoke_by_target`, and the first half of `Store::allow`. */
  function WithoutTarget(entries: seq<Entry>, t: Net): (r: seq<Entry>)
    ensures forall e :: e in r <==> e in entries && e.target != t
  {
    Filter(entries, (e: Entry) => e.target != t)
  }
}
