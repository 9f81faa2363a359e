/** BZ2_blockSort: the main sort with a work budget, or the fallback sort, and the place of the unrotated block. */
module BlockSort {
  import opened Bits
  import opened Permutations
  import opened Rotations
  import opened HeaderBits
  import opened MainCompare
  import opened FallbackSort
  import opened MainSort

  /** The largest block: BZ_N_OVERSHOOT and the compressor's margin keep it below this. */
  const LARGEST_BLOCK := 900000

  /**
   The arrays the sorts work in; bhtab is the fallback sort's use of ftab's memory, quadrant the main sort's use of
   arr2's.
  */
  class SortArrays {
    const arr1: array<nat>
    const arr2: array<byte>
    const quadrant: array<nat>
    const ftab: array<nat>
    const bhtab: array<Word>
    ghost const repr: set<object>

    /** The arrays are separate and long enough for blocks of n bytes. */
    ghost predicate Apart(n: nat) {
      && arr1 != quadrant && arr1 != ftab && quadrant != ftab
      && (arr2 as object) != (arr1 as object) && (arr2 as object) != (quadrant as object)
      && (arr2 as object) != (ftab as object)
      && (bhtab as object) != (arr1 as object) && (bhtab as object) != (arr2 as object)
      && (bhtab as object) != (quadrant as object) && (bhtab as object) != (ftab as object)
      && n <= LARGEST_BLOCK && n <= arr1.Length && 4 * n <= arr2.Length && n + N_OVERSHOOT <= arr2.Length
      && n + N_OVERSHOOT <= quadrant.Length
      && ftab.Length == bhtab.Length == 0x1_0001
      && repr == {arr1, arr2, quadrant, ftab, bhtab}
    }

    ghost predicate Valid(n: nat)
      reads bhtab
    {
      Apart(n) && Words(bhtab[..])
    }

    constructor (n: nat)
      requires n <= LARGEST_BLOCK
      ensures Valid(n) && fresh(repr)
      ensures arr1.Length == n && arr2.Length == 4 * (n + N_OVERSHOOT)
    {
      var a1, a2, q := new nat[n], new byte[4 * (n + N_OVERSHOOT)], new nat[n + N_OVERSHOOT];
      var f, h := new nat[0x1_0001], new Word[0x1_0001](_ => Filled(false));
      arr1, arr2, quadrant, ftab, bhtab := a1, a2, q, f, h;
      repr := {a1, a2, q, f, h};
    }

    /** Leaves the rotations of the block in order in arr1, and returns the place of rotation 0. */
    method BlockSort(nblock: nat, workFactor: int) returns (origPtr: nat)
      requires Valid(nblock) && 0 < nblock
      modifies arr1, arr2, quadrant, ftab, bhtab
      ensures arr2[..nblock] == old(arr2[..nblock])
      ensures IsSorted(arr2[..nblock], arr1[..nblock])
      ensures origPtr < nblock && arr1[origPtr] == 0
      ensures Words(bhtab[..])
    {
      hide Words, IsSorted;
      ghost var b := arr2[..nblock];
      if nblock < 10000 {
        FallbackSort.FallbackSort(arr1, arr2, bhtab, nblock);
      } else {
        var wfact := workFactor;
        if wfact < 1 { wfact := 1; }
        if wfact > 100 { wfact := 100; }
        BudgetPositive(nblock, (wfact - 1) / 3);
        var budget := MainSort.MainSort(arr1, arr2, quadrant, ftab, nblock, nblock * ((wfact - 1) / 3));
        if budget < 0 {
          FallbackSort.FallbackSort(arr1, arr2, bhtab, nblock);
        }
      }
      origPtr := FindOrigin(arr1, nblock, b);
    }
  }

  lemma BudgetPositive(n: nat, k: nat)
    ensures n * k >= 0
  {}

  method FindOrigin(ptr: array<nat>, nblock: nat, ghost b: seq<byte>) returns (origPtr: nat)
    requires 0 < nblock == |b| <= ptr.Length && IsSorted(b, ptr[..nblock])
    ensures origPtr < nblock && ptr[origPtr] == 0
  {
    hide Le;
    ghost var z := PermOnto(ptr[..nblock], nblock, 0);
    origPtr := 0;
    while origPtr < nblock
      invariant origPtr <= z
    {
      if ptr[origPtr] == 0 { return; }
      assert ptr[z] == ptr[..nblock][z];
      origPtr := origPtr + 1;
    }
  }
}
