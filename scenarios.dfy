/**
 * Concrete runs of the greedy construction, worked out by the verifier from
 * the definitions: the one-letter example AACCGGTA to AACCGGTT, an example
 * with no one-step bridge from AACCGGTT, and small runs showing how a pass
 * differs from a plain "find one candidate" search.
 */
module Scenarios {

  import opened Difference
  import opened PathConstruction

  /** Genes that differ in the last position only need its letter. */
  lemma SingleMutationNeeded()
    ensures NeededLetters("AACCGGTA", "AACCGGTT") == ['T']
  {
    assert "AACCGGTT" == "AACCGGTA"[7 := 'T'];
    SubstitutionIsOneStep("AACCGGTA", 7, 'T');
    NeededUpToSpec("AACCGGTA", "AACCGGTT", 8);
  }

  /** One differing position, bridged by a candidate: the path is the start and that candidate. */
  lemma SingleMutationBridged()
    ensures GreedyPath(['T'], "AACCGGTA", ["AACCGGTA", "AACCGGTT"]) ==
      Outcome(["AACCGGTA", "AACCGGTT"], true, ["AACCGGTA"])
  {
    assert "AACCGGTT" == "AACCGGTA"[7 := 'T'];
    SubstitutionIsOneStep("AACCGGTA", 7, 'T');
    NoStepToItself("AACCGGTA", 'T');
    var st0 := ScanState("AACCGGTA", ["AACCGGTA"], ["AACCGGTA", "AACCGGTT"], false);
    assert Scan('T', 0, st0) == Scan('T', 1, st0);
    assert Scan('T', 1, st0) == ScanState("AACCGGTT", ["AACCGGTA", "AACCGGTT"], ["AACCGGTA"], true);
  }

  /** No candidate one step away from the start: there is no path, and the candidates stay as they were. */
  lemma NoBridgeNoPath()
    ensures GreedyPath(['C', 'C', 'T', 'T'], "AACCGGTT", ["AACCTTTT", "CCCCGGTT"]) ==
      Outcome(["AACCGGTT"], false, ["AACCTTTT", "CCCCGGTT"])
  {
    TwoMismatchesNoStep("AACCGGTT", "AACCTTTT", 4, 5);
    TwoMismatchesNoStep("AACCGGTT", "CCCCGGTT", 0, 1);
  }

  /**
   * The pass goes on after a match and compares the later candidates with the
   * new current gene: one letter is put in by two steps. ("CC" slides into the
   * freed slot and is passed over; "TT" is then compared with "TA".)
   */
  lemma ScanContinuesAfterMatch()
    ensures GreedyPath(['T'], "AA", ["TA", "CC", "TT"]) == Outcome(["AA", "TA", "TT"], true, ["CC"])
  {
    assert "TA" == "AA"[0 := 'T'] && "TT" == "TA"[1 := 'T'];
    SubstitutionIsOneStep("AA", 0, 'T');
    SubstitutionIsOneStep("TA", 1, 'T');
    var pool := ["TA", "CC", "TT"];
    var st1 := ScanState("TA", ["AA", "TA"], ["CC", "TT"], true);
    var st2 := ScanState("TT", ["AA", "TA", "TT"], ["CC"], true);
    assert pool[..0] + pool[1..] == ["CC", "TT"];
    assert Scan('T', 0, ScanState("AA", ["AA"], pool, false)) == Scan('T', 1, st1);
    assert st1.pool[..1] + st1.pool[2..] == ["CC"];
    assert Scan('T', 1, st1) == Scan('T', 2, st2) == st2;
  }

  /**
   * Of two candidates one step from the starting gene with the same letter,
   * the first in list order is taken; the later one is then compared with the
   * new current gene and no longer fits.
   */
  lemma FirstMatchTaken()
    ensures GreedyPath(['T'], "AA", ["TA", "CA", "AT"]) == Outcome(["AA", "TA"], true, ["CA", "AT"])
  {
    assert "TA" == "AA"[0 := 'T'];
    SubstitutionIsOneStep("AA", 0, 'T');
    TwoMismatchesNoStep("TA", "AT", 0, 1);
    var pool := ["TA", "CA", "AT"];
    var st1 := ScanState("TA", ["AA", "TA"], ["CA", "AT"], true);
    assert pool[..0] + pool[1..] == ["CA", "AT"];
    assert Scan('T', 0, ScanState("AA", ["AA"], pool, false)) == Scan('T', 1, st1);
    assert Scan('T', 1, st1) == Scan('T', 2, st1) == st1;
  }

  /**
   * After a removal the index still advances, so the candidate that slides
   * into the freed slot is passed over, though it is one step from the new
   * current gene with the same letter.
   */
  lemma RemovalSkipsNextCandidate()
    ensures OneStep("TA", "TT", 'T')
    ensures GreedyPath(['T'], "AA", ["TA", "TT"]) == Outcome(["AA", "TA"], true, ["TT"])
  {
    assert "TA" == "AA"[0 := 'T'] && "TT" == "TA"[1 := 'T'];
    SubstitutionIsOneStep("AA", 0, 'T');
    SubstitutionIsOneStep("TA", 1, 'T');
  }

  /**
   * A complete path need not end at the target: a step is matched on the
   * letter it puts in, not on the position it puts it at.
   */
  lemma PathNeedNotReachTarget()
    ensures NeededLetters("AA", "AT") == ['T']
    ensures GreedyPath(['T'], "AA", ["TA"]) == Outcome(["AA", "TA"], true, [])
    ensures GreedyPath(['T'], "AA", ["TA"]).path[1] != "AT"
  {
    assert "TA" == "AA"[0 := 'T'] && "AT" == "AA"[1 := 'T'];
    SubstitutionIsOneStep("AA", 0, 'T');
    SubstitutionIsOneStep("AA", 1, 'T');
    NeededUpToSpec("AA", "AT", 2);
  }

  /** The hamming distance bounds the length of every complete path from start to target. */
  lemma CompletePathCoversDistance(start: Gene, target: Gene, pool: seq<Gene>)
    requires |start| <= |target|
    ensures GreedyPath(NeededLetters(start, target), start, pool).complete ==>
      |GreedyPath(NeededLetters(start, target), start, pool).path| >= 1 + |Mismatches(start, target)|
  {
    NeededUpToSpec(start, target, |start|);
    GreedyPathSpec(NeededLetters(start, target), start, pool);
  }
}
