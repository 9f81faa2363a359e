/** Links of twenty bits: sixteen in one array, four in half a byte of another. */
module PackedLinks {
  import opened Bits

  /** The half of x that belongs to an even or an odd index. */
  function Nibble(x: byte, odd: bool): nat {
    if odd then x / 16 else x % 16
  }

  /** x with one half replaced by v, as SET_LL4 does it. */
  function WithNibble(x: byte, odd: bool, v: nat): nat {
    if odd then Or(x % 16, 16 * v) else Or(16 * (x / 16), v)
  }

  lemma WithNibbleIs(x: byte, odd: bool, v: nat)
    requires v < 16
    ensures WithNibble(x, odd, v) == if odd then 16 * v + x % 16 else 16 * (x / 16) + v
  {
    assert Pow2(4) == 16;
    if odd {
      OrSwap(x % 16, 16 * v);
      OrNibble(v, x % 16);
    } else {
      OrNibble(x / 16, v);
    }
  }

  lemma OrNibble(a: nat, b: nat)
    requires b < 16
    ensures Or(16 * a, b) == 16 * a + b
  {
    assert Pow2(4) == 16 && (16 * a) % 16 == 0;
    OrDisjoint(16 * a, b, 4);
  }

  lemma NibbleSet(x: byte, odd: bool, v: nat)
    requires v < 16
    ensures WithNibble(x, odd, v) < 256
    ensures var y: byte := WithNibble(x, odd, v);
            Nibble(y, odd) == v && Nibble(y, !odd) == Nibble(x, !odd)
  {
    hide WithNibble;
    WithNibbleIs(x, odd, v);
  }

  lemma {:induction false} OrSwap(a: nat, b: nat)
    ensures Or(a, b) == Or(b, a)
    decreases a + b
  {
    if a + b > 0 { OrSwap(a / 2, b / 2); }
  }

  /** GET_LL of the i-th link. */
  function Link(ll16: seq<nat>, ll4: seq<byte>, i: nat): nat
    requires i < |ll16| && i / 2 < |ll4|
  {
    ll16[i] + 65536 * Nibble(ll4[i / 2], i % 2 == 1)
  }

  /** The first n links. */
  ghost function Links(ll16: seq<nat>, ll4: seq<byte>, n: nat): (s: seq<nat>)
    requires n <= |ll16| && (n + 1) / 2 <= |ll4|
    ensures |s| == n && forall i :: 0 <= i < n ==> s[i] == Link(ll16, ll4, i)
  {
    if n == 0 then [] else Links(ll16, ll4, n - 1) + [Link(ll16, ll4, n - 1)]
  }

  class LinkArray {
    const ll16: array<nat>
    const ll4: array<byte>

    ghost predicate Shaped(n: nat) {
      ll16.Length == n && ll4.Length == (n + 1) / 2 && (ll16 as object) != (ll4 as object)
    }

    constructor (n: nat)
      ensures Shaped(n) && fresh(ll16) && fresh(ll4)
    {
      ll16, ll4 := new nat[n], new byte[(n + 1) / 2];
    }

    /** SET_LL: only the i-th link changes. */
    method Set(i: nat, v: nat)
      requires Shaped(ll16.Length) && i < ll16.Length && v < 0x10_0000
      modifies ll16, ll4
      ensures Link(ll16[..], ll4[..], i) == v && ll16[i] < 65536
      ensures forall k: nat :: k < ll16.Length && k != i ==>
                ll16[k] == old(ll16[k]) && Link(ll16[..], ll4[..], k) == old(Link(ll16[..], ll4[..], k))
    {
      var odd := i % 2 == 1;
      ghost var a, b := ll16[..], ll4[..];
      ll16[i] := v % 65536;
      NibbleSet(ll4[i / 2], odd, v / 65536);
      hide WithNibble, Nibble;
      ll4[i / 2] := WithNibble(ll4[i / 2], odd, v / 65536);
      forall k: nat | k < ll16.Length && k != i
        ensures ll16[k] == a[k] && Link(ll16[..], ll4[..], k) == Link(a, b, k)
      {
        OtherLink(i, k);
      }
    }

    /** GET_LL. */
    method Get(i: nat) returns (v: nat)
      requires Shaped(ll16.Length) && i < ll16.Length && ll16[i] < 65536
      ensures v == Link(ll16[..], ll4[..], i)
    {
      var nibble := Nibble(ll4[i / 2], i % 2 == 1);
      OrDisjointHigh(ll16[i], nibble);
      v := Or(ll16[i], 65536 * nibble);
    }
  }

  /** Links that share a byte of ll4 differ in parity. */
  lemma OtherLink(i: nat, k: nat)
    requires i != k
    ensures i / 2 == k / 2 ==> (k % 2 == 1) == !(i % 2 == 1)
  {}

  lemma OrDisjointHigh(a: nat, b: nat)
    requires a < 65536
    ensures Or(a, 65536 * b) == a + 65536 * b
  {
    Pow2Values();
    OrSwap(a, 65536 * b);
    Pow2Add(8, 8);
    OrDisjoint(65536 * b, a, 16);
  }
}
