/** Addresses, netmasks and the networks they name. */
module Prefixes {
  const ADDRESSES := 0x1_0000_0000
  const WIDTH := 32
  const UINT32_MAX := 0xffff_ffff

  /** Ids count up and start again at 1 after 32 bits. */
  function NextId(id: nat): nat {
    if id + 1 > UINT32_MAX then 1 else id + 1
  }

  type Ip = ip: int | 0 <= ip < 0x1_0000_0000

  /** `x >> n`. */
  function Drop(x: nat, n: nat): nat {
    if n == 0 then x else Drop(x / 2, n - 1)
  }

  /** `x << n`. */
  function Lift(x: nat, n: nat): nat {
    if n == 0 then x else 2 * Lift(x, n - 1)
  }

  /** `ipv4_apply_mask`: and-ing with a mask of `len` leading ones clears the low bits. */
  function Apply(ip: nat, len: nat): nat
    requires len <= WIDTH
  {
    Lift(Drop(ip, WIDTH - len), WIDTH - len)
  }

  datatype Prefix = Prefix(ip: nat, len: nat) {
    predicate Contains(x: nat) {
      len <= WIDTH && Apply(x, len) == ip
    }
  }

  function Power(n: nat): (p: nat)
    ensures p >= 1
  {
    if n == 0 then 1 else 2 * Power(n - 1)
  }

  lemma {:induction false} LiftIs(x: nat, n: nat)
    ensures Lift(x, n) == x * Power(n)
  {
    if n > 0 {
      LiftIs(x, n - 1);
      assert 2 * (x * Power(n - 1)) == x * (2 * Power(n - 1));
    }
  }

  lemma {:induction false} DropBounds(x: nat, n: nat)
    ensures Drop(x, n) * Power(n) <= x < Drop(x, n) * Power(n) + Power(n)
  {
    if n > 0 {
      DropBounds(x / 2, n - 1);
      Doubled(Drop(x / 2, n - 1), Power(n - 1));
    }
  }

  lemma Doubled(d: nat, p: nat)
    ensures d * (2 * p) == 2 * (d * p)
  {
  }

  /** The mask leaves the largest multiple of the network's size that is not above the address. */
  lemma ApplyMeaning(x: nat, len: nat)
    requires len <= WIDTH
    ensures Apply(x, len) <= x < Apply(x, len) + Power(32 - len)
    ensures Apply(x, len) == Drop(x, 32 - len) * Power(32 - len)
  {
    var n := WIDTH - len;
    LiftIs(Drop(x, n), n);
    DropBounds(x, n);
  }

  ghost predicate MultipleOf(x: nat, p: nat) {
    exists k: nat :: x == k * p
  }

  /** A network holds the addresses from its own one on, as many as its size, and no others. */
  lemma ContainsMeaning(a: Prefix, x: nat)
    requires a.len <= WIDTH
    ensures a.Contains(x) <==> MultipleOf(a.ip, Power(32 - a.len)) && a.ip <= x < a.ip + Power(32 - a.len)
  {
    var p, d := Power(32 - a.len), Drop(x, 32 - a.len);
    ApplyMeaning(x, a.len);
    if MultipleOf(a.ip, p) && a.ip <= x < a.ip + p {
      var k: nat :| a.ip == k * p;
      SameMultiple(k, d, p, x);
    }
  }

  lemma SameMultiple(k: nat, d: nat, p: nat, x: nat)
    requires k * p <= x < k * p + p && d * p <= x < d * p + p
    ensures k == d
  {
    NextMultiple(k, d, p);
    NextMultiple(d, k, p);
  }

  lemma NextMultiple(k: nat, d: nat, p: nat)
    ensures k < d ==> k * p + p <= d * p
  {
    if k < d {
      assert k * p + p == (k + 1) * p <= d * p;
    }
  }

  lemma PowersOfTwo()
    ensures Power(0) == 1 && Power(8) == 0x100 && Power(16) == 0x1_0000 && Power(24) == 0x100_0000
    ensures Power(32) == 0x1_0000_0000
  {
    assert Power(8) == 0x100;
    assert Power(16) == 0x1_0000;
    assert Power(24) == 0x100_0000;
  }

  /** With netmask 24 the last byte goes: 192.168.1.10 is in 192.168.1.0/24. */
  lemma LastByte(x: nat)
    ensures Apply(x, 24) == x - x % 0x100
  {
    PowersOfTwo();
    ApplyMeaning(x, 24);
    assert Power(8) == 0x100;
    SameMultiple(x / 0x100, Drop(x, 8), 0x100, x);
  }

  lemma {:induction false} DropLift(x: nat, n: nat)
    ensures Drop(Lift(x, n), n) == x
  {
    if n > 0 {
      DropLift(x, n - 1);
    }
  }

  lemma {:induction false} DropTwice(x: nat, a: nat, b: nat)
    ensures Drop(Drop(x, a), b) == Drop(x, a + b)
  {
    if a > 0 {
      DropTwice(x / 2, a - 1, b);
    }
  }

  lemma {:induction false} DropAll(x: nat, n: nat)
    requires x < Lift(1, n)
    ensures Drop(x, n) == 0
  {
    if n > 0 {
      DropAll(x / 2, n - 1);
    }
  }

  lemma {:induction false} LiftZero(n: nat)
    ensures Lift(0, n) == 0
  {
    if n > 0 {
      LiftZero(n - 1);
    }
  }

  /** The empty mask leaves nothing of an address. */
  lemma WholeSpace(ip: Ip)
    ensures Apply(ip, 0) == 0
  {
    assert Lift(1, 8) == 0x100;
    assert Lift(1, 16) == 0x1_0000;
    assert Lift(1, 24) == 0x100_0000;
    assert Lift(1, 32) == ADDRESSES;
    DropAll(ip, WIDTH);
    LiftZero(WIDTH);
  }

  /** A shorter mask does not see what a longer one has cleared. */
  lemma ApplyTwice(ip: nat, len: nat, shorter: nat)
    requires shorter <= len <= WIDTH
    ensures Apply(Apply(ip, len), shorter) == Apply(ip, shorter)
  {
    var n, m := WIDTH - len, WIDTH - shorter;
    DropTwice(Lift(Drop(ip, n), n), n, m - n);
    DropLift(Drop(ip, n), n);
    DropTwice(ip, n, m - n);
  }

  /** Two networks that share an address are nested: the longer one lies inside the shorter one. */
  lemma Nested(a: Prefix, b: Prefix, x: nat, y: nat)
    requires a.len <= b.len && a.Contains(x) && b.Contains(x) && b.Contains(y)
    ensures a.Contains(y)
  {
    ApplyTwice(x, b.len, a.len);
    ApplyTwice(y, b.len, a.len);
  }
}
