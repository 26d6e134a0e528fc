/**
 * The greedy, single-pass construction of a mutation path (ConstructMutationPath).
 *
 * For each required letter in turn, one pass walks the candidate list from its
 * first element. A candidate one step away from the current gene, putting in
 * the required letter, is appended to the path, becomes the current gene and
 * is removed from the list; the pass then goes on, comparing the remaining
 * candidates with the NEW current gene, and the index still advances, so the
 * candidate that slid into the freed slot is not looked at in that pass. A
 * pass that appends nothing ends the whole construction with no path, and the
 * removals of earlier passes stay done.
 *
 * Scan and Construct state that computation on values; the method
 * ConstructMutationPath runs the loops over a mutable candidate list and is
 * proved to agree with them. The lemmas say what the computed path is.
 */
module PathConstruction {

  import opened Wrappers
  import opened Difference

  /** A mutable list of genes with removal by index, as the candidate list of the C# code. */
  class GeneList {
    var items: seq<Gene>

    constructor (genes: seq<Gene>)
      ensures items == genes
    {
      items := genes;
    }

    /** Removes the element at index, closing the gap; the elements after it move down one slot. */
    method RemoveAt(index: nat)
      requires index < |items|
      modifies this
      ensures items == old(items[..index] + items[index + 1..])
    {
      items := items[..index] + items[index + 1..];
    }
  }

  /** The variables one pass works on: the current gene, the path, the candidate list, and whether it appended. */
  datatype ScanState = ScanState(current: Gene, path: seq<Gene>, pool: seq<Gene>, found: bool)

  /** The rest of the pass for letter, from candidate index i on; it only appends to the path. */
  function Scan(letter: char, i: nat, st: ScanState): (r: ScanState)
    ensures |st.path| <= |r.path| && r.path[..|st.path|] == st.path
    decreases |st.pool| - i
  {
    if i >= |st.pool| then st
    else if OneStep(st.current, st.pool[i], letter) then
      var g := st.pool[i];
      Scan(letter, i + 1, ScanState(g, st.path + [g], st.pool[..i] + st.pool[i + 1..], true))
    else Scan(letter, i + 1, st)
  }

  /**
   * The end state of the construction: the path built (up to the failing pass,
   * when there is one), whether every pass appended something, and the
   * candidates left over.
   */
  datatype Outcome = Outcome(path: seq<Gene>, complete: bool, pool: seq<Gene>)

  /** The remaining passes, one per letter, starting from the given state; they only append to the path. */
  function Construct(letters: seq<char>, current: Gene, path: seq<Gene>, pool: seq<Gene>): (o: Outcome)
    ensures |path| <= |o.path| && o.path[..|path|] == path
    decreases |letters|
  {
    if letters == [] then Outcome(path, true, pool)
    else
      var st := Scan(letters[0], 0, ScanState(current, path, pool, false));
      if !st.found then Outcome(st.path, false, st.pool)
      else Construct(letters[1..], st.current, st.path, st.pool)
  }

  /** The whole greedy construction from the starting gene. */
  function GreedyPath(letters: seq<char>, start: Gene, pool: seq<Gene>): (o: Outcome)
  {
    Construct(letters, start, [start], pool)
  }

  /** Every step from current through steps puts in letter. */
  predicate Chain(current: Gene, steps: seq<Gene>, letter: char)
    decreases |steps|
  {
    steps == [] ||
    (OneStep(current, steps[0], letter) && Chain(steps[0], steps[1..], letter))
  }

  /**
   * The steps from current put in the letters in order, each letter by one or
   * more consecutive steps: every step is one mutation away from the gene
   * before it, and puts in either the same letter as the step before or the
   * next one.
   */
  predicate Realizes(current: Gene, steps: seq<Gene>, letters: seq<char>)
    decreases |steps|
  {
    if steps == [] then letters == []
    else
      letters != [] && OneStep(current, steps[0], letters[0]) &&
      (Realizes(steps[0], steps[1..], letters[1..]) || Realizes(steps[0], steps[1..], letters))
  }

  /** No candidate left in pool is one step from current putting in letter. */
  predicate NoCandidate(current: Gene, pool: seq<Gene>, letter: char)
  {
    forall g :: g in pool ==> !OneStep(current, g, letter)
  }

  /**
   * What one pass does to the path: it only appends, keeps the current gene
   * at the end of the path, appends a chain of steps all putting in letter,
   * reports a match exactly when it appended, and changes nothing when it
   * appends nothing.
   */
  lemma {:induction false} ScanPath(letter: char, i: nat, st: ScanState)
    requires |st.path| > 0 && st.current == st.path[|st.path| - 1]
    ensures |st.path| <= |Scan(letter, i, st).path|
    ensures Scan(letter, i, st).current == Scan(letter, i, st).path[|Scan(letter, i, st).path| - 1]
    ensures Chain(st.current, Scan(letter, i, st).path[|st.path|..], letter)
    ensures Scan(letter, i, st).found == (st.found || |Scan(letter, i, st).path| > |st.path|)
    ensures |Scan(letter, i, st).path| == |st.path| ==> Scan(letter, i, st) == st
    decreases |st.pool| - i
  {
    if i < |st.pool| {
      if OneStep(st.current, st.pool[i], letter) {
        var g := st.pool[i];
        var next := ScanState(g, st.path + [g], st.pool[..i] + st.pool[i + 1..], true);
        ScanPath(letter, i + 1, next);
        var r := Scan(letter, i + 1, next);
        assert r.path[..|st.path|] == r.path[..|next.path|][..|st.path|];
        assert r.path[|st.path|..][0] == g;
        assert r.path[|st.path|..][1..] == r.path[|next.path|..];
      } else {
        ScanPath(letter, i + 1, st);
      }
    }
  }

  /** Every gene one pass appends to the path is taken out of the candidate list. */
  lemma {:induction false} ScanPool(letter: char, i: nat, st: ScanState)
    ensures |st.path| <= |Scan(letter, i, st).path|
    ensures multiset(Scan(letter, i, st).path[|st.path|..]) + multiset(Scan(letter, i, st).pool) == multiset(st.pool)
    decreases |st.pool| - i
  {
    if i < |st.pool| {
      if OneStep(st.current, st.pool[i], letter) {
        var g := st.pool[i];
        var next := ScanState(g, st.path + [g], st.pool[..i] + st.pool[i + 1..], true);
        ScanPool(letter, i + 1, next);
        var r := Scan(letter, i + 1, next);
        assert r.path[|st.path|..] == [g] + r.path[|next.path|..];
        assert st.pool == st.pool[..i] + [g] + st.pool[i + 1..];
        assert multiset(st.pool) == multiset(next.pool) + multiset{g};
        assert multiset(r.path[|st.path|..]) == multiset{g} + multiset(r.path[|next.path|..]);
      } else {
        ScanPool(letter, i + 1, st);
      }
    }
  }

  /**
   * A pass from index i appends something exactly when it had already, or some
   * candidate at index i or later is one step from the gene it starts with and
   * puts in letter.
   */
  lemma {:induction false} ScanFound(letter: char, i: nat, st: ScanState)
    ensures Scan(letter, i, st).found <==>
      st.found || exists j :: i <= j < |st.pool| && OneStep(st.current, st.pool[j], letter)
    decreases |st.pool| - i
  {
    if i < |st.pool| {
      if OneStep(st.current, st.pool[i], letter) {
        var g := st.pool[i];
        ScanFound(letter, i + 1, ScanState(g, st.path + [g], st.pool[..i] + st.pool[i + 1..], true));
      } else {
        ScanFound(letter, i + 1, st);
      }
    }
  }

  /** A non-empty chain for c followed by steps realizing letters realizes [c] + letters. */
  lemma {:induction false} ChainThenRealizes(current: Gene, seg: seq<Gene>, c: char, rest: seq<Gene>, letters: seq<char>)
    requires seg != [] && Chain(current, seg, c)
    requires Realizes(seg[|seg| - 1], rest, letters)
    ensures Realizes(current, seg + rest, [c] + letters)
    decreases |seg|
  {
    assert (seg + rest)[0] == seg[0];
    if |seg| == 1 {
      assert (seg + rest)[1..] == rest;
      assert ([c] + letters)[1..] == letters;
    } else {
      ChainThenRealizes(seg[0], seg[1..], c, rest, letters);
      assert (seg + rest)[1..] == seg[1..] + rest;
    }
  }

  /** ChainThenRealizes for a prefix of the letters: a chain for the first letter, then steps for the next j. */
  lemma ChainThenRealizesPrefix(current: Gene, seg: seq<Gene>, rest: seq<Gene>, letters: seq<char>, j: nat)
    requires letters != [] && j < |letters|
    requires seg != [] && Chain(current, seg, letters[0])
    requires Realizes(seg[|seg| - 1], rest, letters[1..][..j])
    ensures Realizes(current, seg + rest, letters[..j + 1])
  {
    ChainThenRealizes(current, seg, letters[0], rest, letters[1..][..j]);
    assert [letters[0]] + letters[1..][..j] == letters[..j + 1];
  }

  /** What was appended after path, seen through an intermediate extension mid of path. */
  lemma AppendedSplit<T>(path: seq<T>, mid: seq<T>, full: seq<T>)
    requires |path| <= |mid| <= |full|
    requires mid[..|path|] == path && full[..|mid|] == mid
    ensures full[|path|..] == mid[|path|..] + full[|mid|..]
  {
  }

  /** Every gene the passes from a state append to the path comes out of the candidate list. */
  lemma {:induction false} ConstructPool(letters: seq<char>, current: Gene, path: seq<Gene>, pool: seq<Gene>)
    ensures multiset(Construct(letters, current, path, pool).path[|path|..]) +
            multiset(Construct(letters, current, path, pool).pool) == multiset(pool)
    decreases |letters|
  {
    if letters != [] {
      var st0 := ScanState(current, path, pool, false);
      var st := Scan(letters[0], 0, st0);
      ScanPool(letters[0], 0, st0);
      if st.found {
        ConstructPool(letters[1..], st.current, st.path, st.pool);
        var o := Construct(letters[1..], st.current, st.path, st.pool);
        AppendedSplit(path, st.path, o.path);
      }
    }
  }

  /** When every pass from a state appends, the appended steps realize the letters. */
  lemma {:induction false} ConstructComplete(letters: seq<char>, current: Gene, path: seq<Gene>, pool: seq<Gene>)
    requires |path| > 0 && current == path[|path| - 1]
    requires Construct(letters, current, path, pool).complete
    ensures Realizes(current, Construct(letters, current, path, pool).path[|path|..], letters)
    decreases |letters|
  {
    if letters != [] {
      var c := letters[0];
      var st0 := ScanState(current, path, pool, false);
      var st := Scan(c, 0, st0);
      ScanPath(c, 0, st0);
      var seg := st.path[|path|..];
      ConstructComplete(letters[1..], st.current, st.path, st.pool);
      ConstructPool(letters[1..], st.current, st.path, st.pool);
      var o := Construct(letters[1..], st.current, st.path, st.pool);
      var steps := o.path[|st.path|..];
      AppendedSplit(path, st.path, o.path);
      ChainThenRealizes(current, seg, c, steps, letters[1..]);
      assert [c] + letters[1..] == letters;
    }
  }

  /**
   * A pass that appends nothing ends the construction there: the path and the
   * candidate list are returned as they were, and no candidate is one step
   * from the current gene putting in the pass's letter.
   */
  lemma PassFails(letters: seq<char>, current: Gene, path: seq<Gene>, pool: seq<Gene>)
    requires |path| > 0 && current == path[|path| - 1]
    requires letters != [] && !Scan(letters[0], 0, ScanState(current, path, pool, false)).found
    ensures Construct(letters, current, path, pool) == Outcome(path, false, pool)
    ensures NoCandidate(current, pool, letters[0])
  {
    var st0 := ScanState(current, path, pool, false);
    ScanPath(letters[0], 0, st0);
    ScanFound(letters[0], 0, st0);
  }

  /**
   * When some pass from a state appends nothing, the steps appended before it
   * realize the letters before its letter, and no candidate left is one step
   * from the last gene reached putting in its letter.
   */
  lemma {:induction false} ConstructIncomplete(letters: seq<char>, current: Gene, path: seq<Gene>, pool: seq<Gene>)
    requires |path| > 0 && current == path[|path| - 1]
    requires !Construct(letters, current, path, pool).complete
    ensures var o := Construct(letters, current, path, pool);
      exists j ::
        && 0 <= j < |letters|
        && Realizes(current, o.path[|path|..], letters[..j])
        && NoCandidate(o.path[|o.path| - 1], o.pool, letters[j])
    decreases |letters|
  {
    var o := Construct(letters, current, path, pool);
    var c := letters[0];
    var st0 := ScanState(current, path, pool, false);
    var st := Scan(c, 0, st0);
    if !st.found {
      PassFails(letters, current, path, pool);
      assert o.path[|path|..] == [] && letters[..0] == [];
    } else {
      ScanPath(c, 0, st0);
      var seg := st.path[|path|..];
      assert o == Construct(letters[1..], st.current, st.path, st.pool);
      ConstructIncomplete(letters[1..], st.current, st.path, st.pool);
      var steps := o.path[|st.path|..];
      AppendedSplit(path, st.path, o.path);
      var j :| 0 <= j < |letters[1..]| && Realizes(st.current, steps, letters[1..][..j]) &&
        NoCandidate(o.path[|o.path| - 1], o.pool, letters[1..][j]);
      ChainThenRealizesPrefix(current, seg, steps, letters, j);
      assert letters[1..][j] == letters[j + 1];
      assert Realizes(current, o.path[|path|..], letters[..j + 1]);
      assert NoCandidate(o.path[|o.path| - 1], o.pool, letters[j + 1]);
    }
  }

  /** Realizing the letters takes at least one step per letter. */
  lemma {:induction false} RealizesLength(current: Gene, steps: seq<Gene>, letters: seq<char>)
    requires Realizes(current, steps, letters)
    ensures |letters| <= |steps|
    decreases |steps|
  {
    if steps != [] {
      if Realizes(steps[0], steps[1..], letters[1..]) {
        RealizesLength(steps[0], steps[1..], letters[1..]);
      } else {
        RealizesLength(steps[0], steps[1..], letters);
      }
    }
  }

  /** Along steps that realize some letters, each gene differs from the one before it in exactly one position. */
  lemma {:induction false} RealizesAdjacent(current: Gene, steps: seq<Gene>, letters: seq<char>)
    requires Realizes(current, steps, letters)
    ensures forall k :: 0 <= k < |steps| ==> DiffersInOne(([current] + steps)[k], steps[k])
    decreases |steps|
  {
    if steps != [] {
      if Realizes(steps[0], steps[1..], letters[1..]) {
        RealizesAdjacent(steps[0], steps[1..], letters[1..]);
      } else {
        RealizesAdjacent(steps[0], steps[1..], letters);
      }
      assert [steps[0]] + steps[1..] == steps;
      forall k | 1 <= k < |steps|
        ensures DiffersInOne(([current] + steps)[k], steps[k])
      {
        assert ([current] + steps)[k] == steps[k - 1] == ([steps[0]] + steps[1..])[k - 1];
        assert steps[k] == steps[1..][k - 1];
      }
    }
  }

  /** Realizing some letters, the first step puts in the first letter and the last step the last letter. */
  lemma {:induction false} RealizesEnds(current: Gene, steps: seq<Gene>, letters: seq<char>)
    requires Realizes(current, steps, letters)
    ensures letters == [] <==> steps == []
    ensures steps != [] ==> OneStep(current, steps[0], letters[0])
    ensures steps != [] ==>
      OneStep(([current] + steps)[|steps| - 1], steps[|steps| - 1], letters[|letters| - 1])
    decreases |steps|
  {
    if |steps| > 1 {
      if Realizes(steps[0], steps[1..], letters[1..]) {
        RealizesEnds(steps[0], steps[1..], letters[1..]);
      } else {
        RealizesEnds(steps[0], steps[1..], letters);
      }
      assert ([steps[0]] + steps[1..])[|steps| - 2] == ([current] + steps)[|steps| - 1];
    }
  }

  /**
   * The greedy construction as a whole: the path starts with the starting
   * gene; every gene after it was taken out of the candidate list, so the
   * left-over list and the path account for the original list exactly; a
   * complete construction puts in every letter in order, one or more steps
   * per letter, so the path has at least one gene per letter after the start
   * and every gene differs from the one before it in exactly one position;
   * an incomplete one stopped at a letter for which no left-over candidate
   * was one step from the last gene reached.
   */
  lemma GreedyPathSpec(letters: seq<char>, start: Gene, pool: seq<Gene>)
    ensures var o := GreedyPath(letters, start, pool);
      && |o.path| >= 1 && o.path[0] == start
      && multiset(o.path[1..]) + multiset(o.pool) == multiset(pool)
      && multiset(o.path[1..]) <= multiset(pool)
      && |o.pool| + |o.path| - 1 == |pool|
      && (o.complete ==> Realizes(start, o.path[1..], letters))
      && (o.complete ==> |o.path| >= 1 + |letters|)
      && (o.complete ==> forall k :: 0 <= k < |o.path| - 1 ==> DiffersInOne(o.path[k], o.path[k + 1]))
      && (!o.complete ==>
            exists j :: 0 <= j < |letters| &&
              Realizes(start, o.path[1..], letters[..j]) &&
              NoCandidate(o.path[|o.path| - 1], o.pool, letters[j]))
  {
    var o := GreedyPath(letters, start, pool);
    ConstructPool(letters, start, [start], pool);
    assert |multiset(o.path[1..])| + |multiset(o.pool)| == |multiset(pool)|;
    if !o.complete {
      ConstructIncomplete(letters, start, [start], pool);
    } else {
      ConstructComplete(letters, start, [start], pool);
      RealizesLength(start, o.path[1..], letters);
      RealizesAdjacent(start, o.path[1..], letters);
      assert [start] + o.path[1..] == o.path;
    }
  }

  /** With no letters to put in, the path is the starting gene alone and no candidate is used. */
  lemma NoLettersNoSteps(start: Gene, pool: seq<Gene>)
    ensures GreedyPath([], start, pool) == Outcome([start], true, pool)
  {
  }

  /**
   * The construction fails at once, using no candidate, exactly when the
   * first letter has no candidate one step from the starting gene.
   */
  lemma FirstPassFails(letters: seq<char>, start: Gene, pool: seq<Gene>)
    requires letters != []
    ensures NoCandidate(start, pool, letters[0]) <==>
      GreedyPath(letters, start, pool) == Outcome([start], false, pool)
  {
    var st0 := ScanState(start, [start], pool, false);
    ScanFound(letters[0], 0, st0);
    ScanPath(letters[0], 0, st0);
    if NoCandidate(start, pool, letters[0]) {
      assert !Scan(letters[0], 0, st0).found;
    } else {
      var g :| g in pool && OneStep(start, g, letters[0]);
      var j :| 0 <= j < |pool| && pool[j] == g;
      var st := Scan(letters[0], 0, st0);
      ConstructPool(letters[1..], st.current, st.path, st.pool);
    }
  }

  /** The passes from letter j on are the pass for letter j, then (when it appended) the passes after it. */
  lemma PassThenRest(letters: seq<char>, j: nat, st0: ScanState)
    requires j < |letters| && !st0.found
    ensures var st := Scan(letters[j], 0, st0);
      Construct(letters[j..], st0.current, st0.path, st0.pool) ==
        if !st.found then Outcome(st.path, false, st.pool)
        else Construct(letters[j + 1..], st.current, st.path, st.pool)
  {
    assert letters[j..][0] == letters[j] && letters[j..][1..] == letters[j + 1..];
  }

  /**
   * One pass of ConstructMutationPath for the letter gene: walks possibleGenes
   * from the first candidate, and each candidate one step from the current
   * gene putting in gene is appended to the path, becomes the current gene and
   * is removed from the list, after which the index still advances.
   */
  method MutationPass(gene: char, currentGene: Gene, path: seq<Gene>, possibleGenes: GeneList)
    returns (newCurrent: Gene, newPath: seq<Gene>, stepFound: bool)
    requires forall k :: 0 <= k < |possibleGenes.items| ==> |possibleGenes.items[k]| == |currentGene|
    modifies possibleGenes
    ensures Scan(gene, 0, ScanState(currentGene, path, old(possibleGenes.items), false)) ==
      ScanState(newCurrent, newPath, possibleGenes.items, stepFound)
    ensures |newCurrent| == |currentGene|
    ensures forall k :: 0 <= k < |possibleGenes.items| ==> |possibleGenes.items[k]| == |currentGene|
  {
    ghost var st0 := ScanState(currentGene, path, possibleGenes.items, false);
    newCurrent, newPath, stepFound := currentGene, path, false;
    var i := 0;
    while i < |possibleGenes.items|
      invariant |newCurrent| == |currentGene|
      invariant forall k :: 0 <= k < |possibleGenes.items| ==> |possibleGenes.items[k]| == |currentGene|
      invariant Scan(gene, i, ScanState(newCurrent, newPath, possibleGenes.items, stepFound)) == Scan(gene, 0, st0)
      decreases |possibleGenes.items| - i
    {
      ghost var before := ScanState(newCurrent, newPath, possibleGenes.items, stepFound);
      var differs, diff := GetDifference(newCurrent, possibleGenes.items[i]);
      if differs && diff == gene {
        newCurrent := possibleGenes.items[i];
        newPath := newPath + [possibleGenes.items[i]];
        possibleGenes.RemoveAt(i);
        stepFound := true;
      }
      assert Scan(gene, i, before) == Scan(gene, i + 1, ScanState(newCurrent, newPath, possibleGenes.items, stepFound));
      i := i + 1;
    }
  }

  /**
   * Builds the mutation path for lettersToMutate from startingGene, taking the
   * genes of the path out of possibleGenes. Returns None when some letter's
   * pass finds no candidate; possibleGenes then keeps the removals of the
   * earlier passes.
   */
  method ConstructMutationPath(lettersToMutate: seq<char>, startingGene: Gene, possibleGenes: GeneList)
    returns (mutationPath: Option<seq<Gene>>)
    requires forall k :: 0 <= k < |possibleGenes.items| ==> |possibleGenes.items[k]| == |startingGene|
    modifies possibleGenes
    ensures var o := GreedyPath(lettersToMutate, startingGene, old(possibleGenes.items));
      && mutationPath == (if o.complete then Some(o.path) else None)
      && possibleGenes.items == o.pool
    ensures lettersToMutate == [] ==>
      mutationPath == Some([startingGene]) && possibleGenes.items == old(possibleGenes.items)
    ensures mutationPath.Some? ==>
      && |mutationPath.value| >= 1 + |lettersToMutate|
      && mutationPath.value[0] == startingGene
      && Realizes(startingGene, mutationPath.value[1..], lettersToMutate)
      && (forall k :: 0 <= k < |mutationPath.value| - 1 ==>
            DiffersInOne(mutationPath.value[k], mutationPath.value[k + 1]))
      && multiset(mutationPath.value[1..]) + multiset(possibleGenes.items) == old(multiset(possibleGenes.items))
      && |possibleGenes.items| + |mutationPath.value| - 1 == old(|possibleGenes.items|)
    ensures multiset(possibleGenes.items) <= old(multiset(possibleGenes.items))
  {
    ghost var pool0 := possibleGenes.items;
    var path := [startingGene];
    var currentGene := startingGene;

    for j := 0 to |lettersToMutate|
      invariant |currentGene| == |startingGene|
      invariant forall k :: 0 <= k < |possibleGenes.items| ==> |possibleGenes.items[k]| == |startingGene|
      invariant Construct(lettersToMutate[j..], currentGene, path, possibleGenes.items) ==
                GreedyPath(lettersToMutate, startingGene, pool0)
    {
      ghost var st0 := ScanState(currentGene, path, possibleGenes.items, false);
      var stepFound;
      currentGene, path, stepFound := MutationPass(lettersToMutate[j], currentGene, path, possibleGenes);
      PassThenRest(lettersToMutate, j, st0);
      if !stepFound {
        GreedyPathSpec(lettersToMutate, startingGene, pool0);
        return None;
      }
    }

    GreedyPathSpec(lettersToMutate, startingGene, pool0);
    return Some(path);
  }
}
