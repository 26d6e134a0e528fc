/**
 * Position-by-position comparison of two genes: the mismatch positions, the
 * "exactly one mismatch" test (GetDifference) and the list of letters the
 * target needs (FindNeededMutations).
 *
 * Genes are strings of opaque characters; no case folding is modelled. Both
 * C# routines index the second string by the first string's length, so they
 * only need the second gene to be at least as long as the first.
 */
module Difference {

  type Gene = string

  /** The positions below n at which a and b disagree, in ascending order. */
  function MismatchesUpTo(a: Gene, b: Gene, n: nat): (m: seq<nat>)
    requires n <= |a| <= |b|
  {
    if n == 0 then []
    else MismatchesUpTo(a, b, n - 1) + (if a[n - 1] != b[n - 1] then [n - 1] else [])
  }

  /** All positions of a at which b disagrees with it, in ascending order. */
  function Mismatches(a: Gene, b: Gene): (m: seq<nat>)
    requires |a| <= |b|
  {
    MismatchesUpTo(a, b, |a|)
  }

  /** The letters of b at the positions below n where a and b disagree, left to right. */
  function NeededUpTo(a: Gene, b: Gene, n: nat): (letters: seq<char>)
    requires n <= |a| <= |b|
  {
    if n == 0 then []
    else NeededUpTo(a, b, n - 1) + (if a[n - 1] != b[n - 1] then [b[n - 1]] else [])
  }

  /** The letters the target b holds where the start a differs from it, left to right. */
  function NeededLetters(a: Gene, b: Gene): (letters: seq<char>)
    requires |a| <= |b|
  {
    NeededUpTo(a, b, |a|)
  }

  /** Position i is the one and only position of a at which b disagrees. */
  ghost predicate OnlyMismatchAt(a: Gene, b: Gene, i: int)
    requires |a| <= |b|
  {
    0 <= i < |a| && a[i] != b[i] &&
    forall j :: 0 <= j < |a| && j != i ==> a[j] == b[j]
  }

  /** b is one mutation away from a. */
  predicate DiffersInOne(a: Gene, b: Gene)
  {
    |a| <= |b| && |Mismatches(a, b)| == 1
  }

  /** b is one mutation away from a, and the letter b puts in is c. */
  predicate OneStep(a: Gene, b: Gene, c: char)
  {
    DiffersInOne(a, b) && NeededLetters(a, b) == [c]
  }

  /** Every entry of MismatchesUpTo is a disagreeing position below n. */
  lemma {:induction false} MismatchesSound(a: Gene, b: Gene, n: nat)
    requires n <= |a| <= |b|
    ensures forall k :: 0 <= k < |MismatchesUpTo(a, b, n)| ==>
      MismatchesUpTo(a, b, n)[k] < n && a[MismatchesUpTo(a, b, n)[k]] != b[MismatchesUpTo(a, b, n)[k]]
  {
    if n > 0 {
      MismatchesSound(a, b, n - 1);
    }
  }

  /** MismatchesUpTo misses no disagreeing position below n. */
  lemma {:induction false} MismatchesComplete(a: Gene, b: Gene, n: nat)
    requires n <= |a| <= |b|
    ensures forall i :: 0 <= i < n && a[i] != b[i] ==> i in MismatchesUpTo(a, b, n)
  {
    if n > 0 {
      MismatchesComplete(a, b, n - 1);
    }
  }

  /** MismatchesUpTo is strictly ascending. */
  lemma {:induction false} MismatchesAscending(a: Gene, b: Gene, n: nat)
    requires n <= |a| <= |b|
    ensures forall j, k :: 0 <= j < k < |MismatchesUpTo(a, b, n)| ==>
      MismatchesUpTo(a, b, n)[j] < MismatchesUpTo(a, b, n)[k]
  {
    if n > 0 {
      MismatchesAscending(a, b, n - 1);
      MismatchesSound(a, b, n - 1);
    }
  }

  /** With no entry in MismatchesUpTo there is no disagreement below n; else its last entry is the last one. */
  lemma {:induction false} MismatchesLast(a: Gene, b: Gene, n: nat)
    requires n <= |a| <= |b|
    ensures MismatchesUpTo(a, b, n) == [] ==> forall j :: 0 <= j < n ==> a[j] == b[j]
    ensures MismatchesUpTo(a, b, n) != [] ==>
      forall j :: MismatchesUpTo(a, b, n)[|MismatchesUpTo(a, b, n)| - 1] < j < n ==> a[j] == b[j]
  {
    if n > 0 {
      MismatchesLast(a, b, n - 1);
    }
  }

  /** The mismatch list: exactly the disagreeing positions, strictly ascending, the last one last. */
  lemma MismatchesSpec(a: Gene, b: Gene)
    requires |a| <= |b|
    ensures forall k :: 0 <= k < |Mismatches(a, b)| ==>
      Mismatches(a, b)[k] < |a| && a[Mismatches(a, b)[k]] != b[Mismatches(a, b)[k]]
    ensures forall i :: 0 <= i < |a| && a[i] != b[i] ==> i in Mismatches(a, b)
    ensures forall j, k :: 0 <= j < k < |Mismatches(a, b)| ==> Mismatches(a, b)[j] < Mismatches(a, b)[k]
    ensures Mismatches(a, b) == [] ==> forall j :: 0 <= j < |a| ==> a[j] == b[j]
    ensures Mismatches(a, b) != [] ==>
      forall j :: Mismatches(a, b)[|Mismatches(a, b)| - 1] < j < |a| ==> a[j] == b[j]
  {
    MismatchesSound(a, b, |a|);
    MismatchesComplete(a, b, |a|);
    MismatchesAscending(a, b, |a|);
    MismatchesLast(a, b, |a|);
  }

  /** When i is the only disagreeing position, the mismatch list below n is [i] or empty. */
  lemma {:induction false} OnlyMismatchList(a: Gene, b: Gene, i: int, n: nat)
    requires n <= |a| <= |b|
    requires OnlyMismatchAt(a, b, i)
    ensures MismatchesUpTo(a, b, n) == if i < n then [i] else []
  {
    if n > 0 {
      OnlyMismatchList(a, b, i, n - 1);
      var prev := MismatchesUpTo(a, b, n - 1);
      if n - 1 == i {
        assert prev == [] && a[i] != b[i];
        assert MismatchesUpTo(a, b, n) == [] + [i];
      } else {
        assert a[n - 1] == b[n - 1];
        assert MismatchesUpTo(a, b, n) == prev + [];
      }
    }
  }

  /** The needed letters are the target's letters at the mismatch positions, one per position. */
  lemma {:induction false} NeededUpToSpec(a: Gene, b: Gene, n: nat)
    requires n <= |a| <= |b|
    ensures |NeededUpTo(a, b, n)| == |MismatchesUpTo(a, b, n)|
    ensures forall k :: 0 <= k < |NeededUpTo(a, b, n)| ==>
      MismatchesUpTo(a, b, n)[k] < |b| && NeededUpTo(a, b, n)[k] == b[MismatchesUpTo(a, b, n)[k]]
  {
    if n > 0 {
      NeededUpToSpec(a, b, n - 1);
      MismatchesSound(a, b, n - 1);
    }
  }

  /** There is exactly one mismatch iff the mismatch list has one entry, and that entry is it. */
  lemma SingleMismatch(a: Gene, b: Gene)
    requires |a| <= |b|
    ensures |Mismatches(a, b)| == 1 <==> exists i :: OnlyMismatchAt(a, b, i)
    ensures |Mismatches(a, b)| == 1 ==> OnlyMismatchAt(a, b, Mismatches(a, b)[0])
    ensures forall i :: OnlyMismatchAt(a, b, i) ==> Mismatches(a, b) == [i]
  {
    var m := Mismatches(a, b);
    MismatchesSpec(a, b);
    forall i | OnlyMismatchAt(a, b, i)
      ensures m == [i]
    {
      OnlyMismatchList(a, b, i, |a|);
    }
    if |m| == 1 {
      assert OnlyMismatchAt(a, b, m[0]);
    }
  }

  /** The single-step relation, stated position by position. */
  lemma OneStepMeaning(a: Gene, b: Gene, c: char)
    requires |a| <= |b|
    ensures OneStep(a, b, c) <==> exists i :: OnlyMismatchAt(a, b, i) && b[i] == c
    ensures DiffersInOne(a, b) <==> exists i :: OnlyMismatchAt(a, b, i)
  {
    SingleMismatch(a, b);
    NeededUpToSpec(a, b, |a|);
  }

  /** A gene is never one step away from itself. */
  lemma NoStepToItself(a: Gene, c: char)
    ensures !OneStep(a, a, c) && !DiffersInOne(a, a)
  {
    NeededLettersSpec(a, a);
  }

  /** Substituting a different letter at one position gives a gene one step away that puts in that letter. */
  lemma SubstitutionIsOneStep(a: Gene, i: nat, c: char)
    requires i < |a| && a[i] != c
    ensures Mismatches(a, a[i := c]) == [i]
    ensures OneStep(a, a[i := c], c)
  {
    var b := a[i := c];
    assert OnlyMismatchAt(a, b, i);
    OnlyMismatchList(a, b, i, |a|);
    NeededUpToSpec(a, b, |a|);
    assert NeededLetters(a, b)[0] == b[i] == c;
    assert NeededLetters(a, b) == [c];
  }

  /** Two genes that disagree at two different positions are not one step apart. */
  lemma TwoMismatchesNoStep(a: Gene, b: Gene, i: nat, j: nat)
    requires |a| <= |b| && i < j < |a|
    requires a[i] != b[i] && a[j] != b[j]
    ensures !DiffersInOne(a, b)
    ensures forall c :: !OneStep(a, b, c)
  {
    SingleMismatch(a, b);
  }

  /**
   * Two genes of the same length that are both one step from x with the
   * same letter are never one step from each other with that letter:
   * once the first has become the current gene, the second no longer fits.
   */
  lemma LaterMatchNoLongerFits(x: Gene, y: Gene, z: Gene, c: char)
    requires |x| == |y| == |z|
    requires OneStep(x, y, c) && OneStep(x, z, c)
    ensures !OneStep(y, z, c)
  {
    OneStepMeaning(x, y, c);
    OneStepMeaning(x, z, c);
    var i :| OnlyMismatchAt(x, y, i) && y[i] == c;
    var j :| OnlyMismatchAt(x, z, j) && z[j] == c;
    if i == j {
      assert y == z;
      NoStepToItself(y, c);
    } else if i < j {
      TwoMismatchesNoStep(y, z, i, j);
    } else {
      TwoMismatchesNoStep(y, z, j, i);
    }
  }

  /** The last needed letter is the target's letter at the last disagreeing position. */
  lemma LastNeededLetter(a: Gene, b: Gene)
    requires |a| <= |b|
    ensures forall k :: (0 <= k < |a| && a[k] != b[k] && forall j :: k < j < |a| ==> a[j] == b[j]) ==>
      NeededLetters(a, b) != [] && NeededLetters(a, b)[|NeededLetters(a, b)| - 1] == b[k]
  {
    var m := Mismatches(a, b);
    MismatchesSpec(a, b);
    NeededUpToSpec(a, b, |a|);
    forall k | 0 <= k < |a| && a[k] != b[k] && (forall j :: k < j < |a| ==> a[j] == b[j])
      ensures NeededLetters(a, b) != [] && NeededLetters(a, b)[|NeededLetters(a, b)| - 1] == b[k]
    {
      assert k in m;
    }
  }

  /**
   * What the needed letters say about a single step: there is one exactly
   * when there is exactly one disagreeing position, and then it is the
   * target's letter there; there are none when the genes agree; the last one
   * is the target's letter at the last disagreeing position.
   */
  lemma DifferenceReport(a: Gene, b: Gene)
    requires |a| <= |b|
    ensures |NeededLetters(a, b)| == 1 <==> exists i :: OnlyMismatchAt(a, b, i)
    ensures forall i :: OnlyMismatchAt(a, b, i) ==> NeededLetters(a, b) == [b[i]] && a[i] != b[i]
    ensures (forall i :: 0 <= i < |a| ==> a[i] == b[i]) ==> NeededLetters(a, b) == []
    ensures forall k :: (0 <= k < |a| && a[k] != b[k] && forall j :: k < j < |a| ==> a[j] == b[j]) ==>
      NeededLetters(a, b) != [] && NeededLetters(a, b)[|NeededLetters(a, b)| - 1] == b[k]
    ensures forall c :: OneStep(a, b, c) <==> NeededLetters(a, b) == [c]
  {
    NeededLettersSpec(a, b);
    SingleMismatch(a, b);
    LastNeededLetter(a, b);
  }

  /**
   * Compares the two genes position by position, counting the mismatches and
   * remembering the letter of target at the last one. Reports true exactly
   * when there was one mismatch, and then difference is target's letter there.
   */
  method GetDifference(current: Gene, target: Gene) returns (found: bool, difference: char)
    requires |current| <= |target|
    ensures found <==> exists i :: OnlyMismatchAt(current, target, i)
    ensures forall i :: OnlyMismatchAt(current, target, i) ==>
      difference == target[i] && difference != current[i]
    ensures (forall i :: 0 <= i < |current| ==> current[i] == target[i]) ==> !found && difference == ' '
    ensures forall k :: (0 <= k < |current| && current[k] != target[k] &&
                         forall j :: k < j < |current| ==> current[j] == target[j])
                        ==> difference == target[k]
    ensures forall c :: OneStep(current, target, c) <==> found && difference == c
  {
    var diffCount := 0;
    difference := ' ';
    for i := 0 to |current|
      invariant diffCount == |NeededUpTo(current, target, i)|
      invariant difference == if diffCount == 0 then ' ' else NeededUpTo(current, target, i)[diffCount - 1]
    {
      if current[i] != target[i] {
        diffCount := diffCount + 1;
        difference := target[i];
      }
    }
    found := diffCount == 1;
    ghost var d := NeededLetters(current, target);
    assert found == (|d| == 1) && difference == if d == [] then ' ' else d[|d| - 1];
    DifferenceReport(current, target);
  }

  /**
   * The needed letters are the target's letters at the disagreeing positions,
   * left to right; there are none exactly when the start agrees with the
   * target on all its positions, that is, for genes of equal length, when
   * they are the same gene.
   */
  lemma NeededLettersSpec(a: Gene, b: Gene)
    requires |a| <= |b|
    ensures |NeededLetters(a, b)| == |Mismatches(a, b)|
    ensures forall k :: 0 <= k < |NeededLetters(a, b)| ==>
      Mismatches(a, b)[k] < |b| && NeededLetters(a, b)[k] == b[Mismatches(a, b)[k]]
    ensures NeededLetters(a, b) == [] <==> forall i :: 0 <= i < |a| ==> a[i] == b[i]
    ensures |a| == |b| ==> (NeededLetters(a, b) == [] <==> a == b)
  {
    NeededUpToSpec(a, b, |a|);
    MismatchesSpec(a, b);
    if NeededLetters(a, b) != [] {
      var p := Mismatches(a, b)[0];
      assert a[p] != b[p];
    }
    if |a| == |b| && NeededLetters(a, b) == [] {
      assert a == b;
    }
  }

  /**
   * Collects, left to right, the letters of targetGene at the positions where
   * startingGene differs from it.
   */
  method FindNeededMutations(startingGene: Gene, targetGene: Gene) returns (lettersToMutate: seq<char>)
    requires |startingGene| <= |targetGene|
    ensures lettersToMutate == NeededLetters(startingGene, targetGene)
    ensures |lettersToMutate| == |Mismatches(startingGene, targetGene)|
    ensures forall k :: 0 <= k < |lettersToMutate| ==>
      Mismatches(startingGene, targetGene)[k] < |targetGene| &&
      lettersToMutate[k] == targetGene[Mismatches(startingGene, targetGene)[k]]
    ensures lettersToMutate == [] <==> forall i :: 0 <= i < |startingGene| ==> startingGene[i] == targetGene[i]
    ensures |startingGene| == |targetGene| ==> (lettersToMutate == [] <==> startingGene == targetGene)
  {
    lettersToMutate := [];
    for i := 0 to |startingGene|
      invariant lettersToMutate == NeededUpTo(startingGene, targetGene, i)
    {
      if startingGene[i] == targetGene[i] {
        continue;
      }
      lettersToMutate := lettersToMutate + [targetGene[i]];
    }
    NeededLettersSpec(startingGene, targetGene);
  }
}
