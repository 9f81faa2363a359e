/** bhtab: bucket-header bits packed in 32-bit words, and the scan for the next bucket of more than one entry. */
module HeaderBits {

  /** A word is its 32 bits, least significant first. */
  type Word = seq<bool>

  function Filled(b: bool): (w: Word)
    ensures |w| == 32 && forall i :: 0 <= i < 32 ==> w[i] == b
  {
    seq(32, _ => b)
  }

  ghost predicate Words(tab: seq<Word>) {
    forall i :: 0 <= i < |tab| ==> |tab[i]| == 32
  }

  /** ISSET_BH. */
  predicate BitAt(tab: seq<Word>, z: nat)
    requires Words(tab) && z < 32 * |tab|
  {
    tab[z / 32][z % 32]
  }

  /** SET_BH and CLEAR_BH. */
  method PutBit(bhtab: array<Word>, z: nat, b: bool)
    requires Words(bhtab[..]) && z < 32 * bhtab.Length
    modifies bhtab
    ensures Words(bhtab[..]) && BitAt(bhtab[..], z) == b
    ensures forall x: nat :: x < 32 * bhtab.Length && x != z ==> BitAt(bhtab[..], x) == BitAt(old(bhtab[..]), x)
  {
    bhtab[z / 32] := bhtab[z / 32][z % 32 := b];
  }

  /** Alternating bits from n on: set at n, clear at n + 1, and so for 64 places. */
  ghost predicate Sentinels(tab: seq<Word>, n: nat)
    requires Words(tab)
  {
    n + 64 <= 32 * |tab| && forall i :: 0 <= i < 32 ==> BitAt(tab, n + 2 * i) && !BitAt(tab, n + 2 * i + 1)
  }

  /** All bits from k0 up to k have the value b. */
  ghost predicate Run(tab: seq<Word>, k0: nat, k: nat, b: bool)
    requires Words(tab) && k <= 32 * |tab|
  {
    forall x: nat :: k0 <= x < k ==> BitAt(tab, x) == b
  }

  lemma WholeWord(tab: seq<Word>, k: nat, b: bool)
    requires Words(tab) && k % 32 == 0 && k + 32 <= 32 * |tab| && tab[k / 32] == Filled(b)
    ensures Run(tab, k, k + 32, b)
  {
    forall x: nat | k <= x < k + 32
      ensures BitAt(tab, x) == b
    {
      assert x / 32 == k / 32;
    }
  }

  /** Steps over bits with value b: one by one to a word boundary, then whole words, then one by one. */
  method SkipBits(bhtab: array<Word>, k0: nat, b: bool, ghost stop: nat) returns (k: nat)
    requires Words(bhtab[..]) && k0 <= stop && stop + 32 < 32 * bhtab.Length && BitAt(bhtab[..], stop) != b
    ensures k0 <= k <= stop && Run(bhtab[..], k0, k, b) && BitAt(bhtab[..], k) != b
  {
    ghost var tab := bhtab[..];
    k := k0;
    while BitAt(bhtab[..], k) == b && k % 32 != 0
      invariant k0 <= k <= stop && Run(tab, k0, k, b)
      decreases stop - k
    {
      k := k + 1;
    }
    if BitAt(bhtab[..], k) == b {
      while bhtab[k / 32] == Filled(b)
        invariant k0 <= k <= stop && k % 32 == 0 && Run(tab, k0, k, b)
        decreases stop - k
      {
        WholeWord(tab, k, b);
        assert Run(tab, k0, k + 32, b);
        k := k + 32;
      }
      while BitAt(bhtab[..], k) == b
        invariant k0 <= k <= stop && Run(tab, k0, k, b)
        decreases stop - k
      {
        k := k + 1;
      }
    }
  }

  /** The next bucket with more than one entry, from header k on. */
  method NextBucket(bhtab: array<Word>, k0: nat, nblock: nat) returns (found: bool, l: nat, r: nat)
    requires Words(bhtab[..]) && Sentinels(bhtab[..], nblock) && k0 <= nblock && BitAt(bhtab[..], k0)
    ensures !found ==> Run(bhtab[..], k0, nblock, true)
    ensures found ==> k0 <= l < r < nblock && Run(bhtab[..], k0, l + 1, true) && Run(bhtab[..], l + 1, r + 1, false)
                      && BitAt(bhtab[..], r + 1)
  {
    hide Run;
    assert BitAt(bhtab[..], nblock + 2 * 0) && !BitAt(bhtab[..], nblock + 2 * 0 + 1);
    var k := SkipBits(bhtab, k0, true, nblock + 1);
    l, r := k - 1, 0;
    found := l < nblock;
    if found {
      k := SkipBits(bhtab, k, false, nblock);
      r := k - 1;
    } else {
      RunPrefix(bhtab[..], k0, nblock, k, true);
    }
  }

  lemma RunPrefix(tab: seq<Word>, k0: nat, m: nat, k: nat, b: bool)
    requires Words(tab) && m <= k <= 32 * |tab| && Run(tab, k0, k, b)
    ensures Run(tab, k0, m, b)
  {}
}
