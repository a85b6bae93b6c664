/** `find_optimal_uca`: the walk over the candidate list that erases elements under its own iterator. */
module UcaOptimal {
  import opened Limits
  import opened PowersOfTwo
  import opened UcaModel

  /** An organisation of the whole cache: its arrays and its figures. */
  datatype UcaOrg = UcaOrg(tag: Option<MemArray>, data: MemArray, figures: Figures)

  /** How candidates are judged: whether they may be chosen, at what cost, and whether the walk edits
      the list (it does unless the objective is energy-delay or energy-delay-squared). */
  datatype Judge = Judge(ok: UcaOrg -> bool, cost: UcaOrg -> real, edits: bool)

  datatype Pick = Chosen(org: UcaOrg) | NoCandidates | NoneMeetsCriteria | PastTheEnd

  ghost predicate Choosable(j: Judge, o: UcaOrg) {
    j.ok(o) && j.cost(o) < BIGNUM
  }

  /** The head is erased when it is visited: it is rejected, or becomes the first optimum. */
  ghost predicate HeadErased(j: Judge, cands: seq<UcaOrg>) {
    cands != [] && j.edits && (!j.ok(cands[0]) || j.cost(cands[0]) < BIGNUM)
  }

  /** The positions the walk visits: all but index 1, which an erased head lets it step over. */
  ghost predicate Visits(j: Judge, cands: seq<UcaOrg>, i: nat) {
    i < |cands| && (HeadErased(j, cands) ==> i != 1)
  }

  /** k is the first of the cheapest choosable positions visited below bound. */
  ghost predicate FirstCheapest(j: Judge, cands: seq<UcaOrg>, bound: nat, k: nat) {
    && k < bound <= |cands| && Visits(j, cands, k) && Choosable(j, cands[k])
    && (forall i: nat | i < bound && Visits(j, cands, i) && Choosable(j, cands[i]) :: j.cost(cands[k]) <= j.cost(cands[i]))
    && (forall i: nat | i < k && Visits(j, cands, i) && Choosable(j, cands[i]) :: j.cost(cands[k]) < j.cost(cands[i]))
  }

  ghost predicate NoneChoosable(j: Judge, cands: seq<UcaOrg>, bound: nat) {
    forall i: nat | i < bound && Visits(j, cands, i) :: !Choosable(j, cands[i])
  }

  /** The optimum among the positions visited below bound; best is -1 while there is none. */
  ghost predicate BestSoFar(j: Judge, cands: seq<UcaOrg>, bound: nat, best: int, minCost: real) {
    if best < 0 then minCost == BIGNUM && NoneChoosable(j, cands, bound)
    else FirstCheapest(j, cands, bound, best) && minCost == j.cost(cands[best])
  }

  ghost predicate SomeChoosable(j: Judge, cands: seq<UcaOrg>) {
    exists i: nat :: i < |cands| && Choosable(j, cands[i])
  }

  /** k is a cheapest of the whole list, visited or not. */
  ghost predicate CheapestOfAll(j: Judge, cands: seq<UcaOrg>, k: nat) {
    && k < |cands| && Choosable(j, cands[k])
    && forall i: nat | i < |cands| && Choosable(j, cands[i]) :: j.cost(cands[k]) <= j.cost(cands[i])
  }

  /** Index 1 may be chosen, and is strictly cheaper than every other candidate that may be. */
  ghost predicate SecondIsBest(j: Judge, cands: seq<UcaOrg>) {
    && |cands| > 1 && Choosable(j, cands[1])
    && (forall i: nat | i < |cands| && i != 1 && Choosable(j, cands[i]) :: j.cost(cands[1]) < j.cost(cands[i]))
  }

  /** The walk steps over the only cheapest candidate. */
  ghost predicate SkipsOptimum(j: Judge, cands: seq<UcaOrg>) {
    HeadErased(j, cands) && SecondIsBest(j, cands)
  }

  /** Below any bound there is a first cheapest visited position, or nothing visited may be chosen. */
  lemma {:induction false} FirstCheapestExists(j: Judge, cands: seq<UcaOrg>, bound: nat) returns (k: int)
    requires bound <= |cands|
    ensures k < 0 ==> NoneChoosable(j, cands, bound)
    ensures k >= 0 ==> FirstCheapest(j, cands, bound, k)
  {
    k := -1;
    if bound > 0 {
      k := FirstCheapestExists(j, cands, bound - 1);
      var last: nat := bound - 1;
      if Visits(j, cands, last) && Choosable(j, cands[last]) && (k < 0 || j.cost(cands[last]) < j.cost(cands[k])) {
        k := last;
      }
    }
  }

  /** The walk in plain terms. It looks at every candidate but the second, and at that one unless the first
      is erased: rejected, or cheaper than 10^30. What it returns is within bounds, cheaper than 10^30, no
      dearer than any other such candidate it looks at, and cheaper than any before it. */
  lemma FirstCheapestMeans(j: Judge, cands: seq<UcaOrg>, k: nat)
    ensures HeadErased(j, cands) <==>
              cands != [] && j.edits && (!j.ok(cands[0]) || j.cost(cands[0]) < 1e30)
    ensures FirstCheapest(j, cands, |cands|, k) <==>
              && k < |cands| && j.ok(cands[k]) && j.cost(cands[k]) < 1e30
              && (k == 1 ==> !HeadErased(j, cands))
              && forall i: nat | i < |cands| && (i == 1 ==> !HeadErased(j, cands)) && j.ok(cands[i])
                                 && j.cost(cands[i]) < 1e30 ::
                   j.cost(cands[k]) <= j.cost(cands[i]) && (i < k ==> j.cost(cands[k]) < j.cost(cands[i]))
    ensures NoneChoosable(j, cands, |cands|) <==>
              forall i: nat | i < |cands| && (i == 1 ==> !HeadErased(j, cands)) && j.ok(cands[i]) ::
                j.cost(cands[i]) >= 1e30
  {}

  lemma FirstCheapestUnique(j: Judge, cands: seq<UcaOrg>, a: nat, b: nat)
    requires FirstCheapest(j, cands, |cands|, a) && FirstCheapest(j, cands, |cands|, b)
    ensures a == b
  {
    assert a < b || b < a || a == b;
  }

  /** What the optimum found, or that none was found, says about the whole list. */
  lemma EndsOptimal(j: Judge, cands: seq<UcaOrg>, best: int)
    requires SomeChoosable(j, cands)
    requires if best < 0 then NoneChoosable(j, cands, |cands|) else FirstCheapest(j, cands, |cands|, best)
    ensures (best >= 0 && CheapestOfAll(j, cands, best)) <==> !SkipsOptimum(j, cands)
  {
    if best < 0 {
      var i: nat :| i < |cands| && Choosable(j, cands[i]);
      assert !Visits(j, cands, i);
    } else if SkipsOptimum(j, cands) {
      assert j.cost(cands[1]) < j.cost(cands[best]);
    }
  }

  /** When some candidate may be chosen, the cheapest visited one is a cheapest of the whole list if and
      only if the walk does not step over the only cheapest; without editing it never does. */
  lemma ChoiceIsOptimal(j: Judge, cands: seq<UcaOrg>)
    requires SomeChoosable(j, cands)
    ensures (exists k: nat :: FirstCheapest(j, cands, |cands|, k) && CheapestOfAll(j, cands, k)) <==> !SkipsOptimum(j, cands)
    ensures !j.edits ==> !SkipsOptimum(j, cands)
  {
    var best := FirstCheapestExists(j, cands, |cands|);
    EndsOptimal(j, cands, best);
    forall k: nat | FirstCheapest(j, cands, |cands|, k)
      ensures k == best
    {
      if best >= 0 {
        FirstCheapestUnique(j, cands, k, best);
      }
    }
  }

  /** A dearer head that is erased shields a cheaper second candidate. */
  lemma DearerHeadWins(j: Judge, cands: seq<UcaOrg>)
    requires j.edits && |cands| == 2 && Choosable(j, cands[0]) && Choosable(j, cands[1])
    requires j.cost(cands[1]) < j.cost(cands[0])
    ensures FirstCheapest(j, cands, 2, 0)
  {
    assert !Visits(j, cands, 1);
  }

  /** A rejected head shields the only candidate that may be chosen. */
  lemma RejectedHeadShields(j: Judge, cands: seq<UcaOrg>)
    requires j.edits && |cands| == 3 && !j.ok(cands[0]) && Choosable(j, cands[1]) && !j.ok(cands[2])
    ensures SomeChoosable(j, cands) && NoneChoosable(j, cands, 3) && SkipsOptimum(j, cands)
  {
    assert !Visits(j, cands, 1);
    assert Choosable(j, cands[1]);
  }

  /** Where the walk goes after visiting position next. */
  ghost function NextVisit(j: Judge, cands: seq<UcaOrg>, next: nat): nat {
    if next == 0 && HeadErased(j, cands) then 2 else next + 1
  }

  lemma BestStep(j: Judge, cands: seq<UcaOrg>, next: nat, best: int, minCost: real)
    requires next < |cands| && Visits(j, cands, next) && BestSoFar(j, cands, next, best, minCost)
    requires NextVisit(j, cands, next) <= |cands|
    ensures var o := cands[next];
            var better := j.ok(o) && minCost > j.cost(o);
            BestSoFar(j, cands, NextVisit(j, cands, next), if better then next else best, if better then j.cost(o) else minCost)
  {
    forall i: nat | i < NextVisit(j, cands, next) && Visits(j, cands, i)
      ensures i < next || i == next
    {}
  }

  /** The positions visited below a bound, in order. */
  ghost predicate VisitedBelow(j: Judge, cands: seq<UcaOrg>, visited: seq<nat>, bound: nat) {
    && (forall i: nat :: i in visited <==> i < bound && Visits(j, cands, i))
    && (forall a, b | 0 <= a < b < |visited| :: visited[a] < visited[b])
  }

  lemma VisitStep(j: Judge, cands: seq<UcaOrg>, next: nat, visited: seq<nat>)
    requires next < |cands| && Visits(j, cands, next) && VisitedBelow(j, cands, visited, next)
    ensures VisitedBelow(j, cands, visited + [next], NextVisit(j, cands, next))
  {
    assert forall a | 0 <= a < |visited| :: visited[a] in visited;
  }

  /** The best so far, as the walk records it. */
  ghost predicate Recorded(j: Judge, cands: seq<UcaOrg>, bound: nat, best: int, minCost: real, res: Option<UcaOrg>) {
    && -1 <= best && BestSoFar(j, cands, bound, best, minCost)
    && res == if best < 0 then None else Some(cands[best])
  }

  /** What is left of the edited list from a position on is what is left of the candidates. */
  ghost predicate Aligned(list: seq<UcaOrg>, pos: int, cands: seq<UcaOrg>, next: int) {
    0 <= pos <= |list| && 0 <= next <= |cands| && list[pos..] == cands[next..]
  }

  predicate Better(j: Judge, o: UcaOrg, minCost: real) {
    j.ok(o) && minCost > j.cost(o)
  }

  predicate Erases(j: Judge, o: UcaOrg, minCost: real) {
    j.edits && (Better(j, o, minCost) || !j.ok(o))
  }

  lemma AlignedNext(list: seq<UcaOrg>, pos: int, cands: seq<UcaOrg>, next: int, rest: seq<UcaOrg>, at: int, erased: bool)
    requires Aligned(list, pos, cands, next) && pos < |list|
    requires if erased then rest == list[..pos] + list[pos + 1..] && at == (if pos == 0 then 0 else pos - 1) else rest == list && at == pos
    ensures list[pos] == cands[next] && next < |cands|
    ensures at == |rest| <==> erased && |list| == 1
    ensures at < |rest| ==> Aligned(rest, at + 1, cands, if erased && pos == 0 then next + 2 else next + 1)
  {
    assert list[pos..][0] == cands[next..][0];
    assert list[pos + 1..] == list[pos..][1..] == cands[next..][1..] == cands[next + 1..];
    if erased && pos == 0 && |rest| > 0 {
      assert rest == list[1..];
      assert rest[1..] == list[1..][1..] == cands[next + 1..][1..] == cands[next + 2..];
    }
    if erased && pos > 0 {
      assert rest[pos..] == list[pos + 1..];
    }
  }

  /** One round of the walk: judges the candidate at a position and erases it or not. */
  method Judgement(j: Judge, list: seq<UcaOrg>, pos: nat, minCost: real, res: Option<UcaOrg>)
    returns (rest: seq<UcaOrg>, at: nat, cost: real, pick: Option<UcaOrg>)
    requires pos < |list|
    ensures cost == (if Better(j, list[pos], minCost) then j.cost(list[pos]) else minCost)
    ensures pick == (if Better(j, list[pos], minCost) then Some(list[pos]) else res)
    ensures if Erases(j, list[pos], minCost) then rest == list[..pos] + list[pos + 1..] && at == (if pos == 0 then 0 else pos - 1)
            else rest == list && at == pos
  {
    var o := list[pos];
    var erase := false;
    rest, at, cost, pick := list, pos, minCost, res;
    if j.ok(o) {
      var oCost := j.cost(o);
      if minCost > oCost {
        cost := oCost;
        pick := Some(o);
        erase := j.edits;
      }
    } else {
      erase := j.edits;
    }
    if erase {
      at, rest := EraseAt(list, pos);
    }
  }

  /** `niter = erase(niter)`, stepping back unless the iterator is at the head. */
  method EraseAt(list: seq<UcaOrg>, pos: nat) returns (at: nat, rest: seq<UcaOrg>)
    requires pos < |list|
    ensures rest == list[..pos] + list[pos + 1..] && at == (if pos == 0 then 0 else pos - 1)
  {
    rest := list[..pos] + list[pos + 1..];
    at := pos;
    if at != 0 {
      at := at - 1;
    }
  }

  /** Where a round leaves the walk. */
  lemma RoundDone(j: Judge, cands: seq<UcaOrg>, next: nat, pos: nat, best: int, minCost: real, res: Option<UcaOrg>,
                  cost: real, pick: Option<UcaOrg>)
    requires next < |cands| && Recorded(j, cands, next, best, minCost, res)
    requires (next == 0 <==> pos == 0) && (next == 1 ==> !HeadErased(j, cands))
    requires cost == (if Better(j, cands[next], minCost) then j.cost(cands[next]) else minCost)
    requires pick == (if Better(j, cands[next], minCost) then Some(cands[next]) else res)
    ensures Visits(j, cands, next)
    ensures Erases(j, cands[next], minCost) && pos == 0 <==> next == 0 && HeadErased(j, cands)
    ensures NextVisit(j, cands, next) <= |cands| ==>
              Recorded(j, cands, NextVisit(j, cands, next), if Better(j, cands[next], minCost) then next else best, cost, pick)
  {
    if NextVisit(j, cands, next) <= |cands| {
      BestStep(j, cands, next, best, minCost);
    }
  }

  /** The walk. A position is an index into the edited list; the iterator of a list whose head is
      erased stays at the new head, and the loop step then moves past it. On a list of one candidate
      that step would increment the end iterator. */
  method Walk(j: Judge, cands: seq<UcaOrg>) returns (pick: Pick, ghost visited: seq<nat>, ghost best: int)
    ensures pick == NoCandidates <==> cands == []
    ensures pick == PastTheEnd <==> |cands| == 1 && HeadErased(j, cands)
    ensures pick == NoneMeetsCriteria ==> NoneChoosable(j, cands, |cands|)
    ensures pick.Chosen? ==> best >= 0 && FirstCheapest(j, cands, |cands|, best) && pick.org == cands[best]
    ensures SomeChoosable(j, cands) ==>
              ((pick.Chosen? && CheapestOfAll(j, cands, best)) <==> !SkipsOptimum(j, cands) && pick != PastTheEnd)
    ensures pick != PastTheEnd ==> forall i: nat :: i in visited <==> Visits(j, cands, i)
    ensures forall a, b | 0 <= a < b < |visited| :: visited[a] < visited[b]
  {
    visited, best := [], -1;
    if cands == [] {
      return NoCandidates, visited, best;
    }
    var list := cands;
    var pos := 0;
    var minCost := BIGNUM;
    var res: Option<UcaOrg> := None;
    ghost var next: nat := 0;
    while pos < |list|
      invariant Aligned(list, pos, cands, next) && |list| - pos == |cands| - next
      invariant (next == 0 <==> pos == 0) && (next == 1 ==> !HeadErased(j, cands))
      invariant Recorded(j, cands, next, best, minCost, res) && VisitedBelow(j, cands, visited, next)
      decreases |list| - pos
    {
      var rest, at, cost, choice := Judgement(j, list, pos, minCost, res);
      AlignedNext(list, pos, cands, next, rest, at, Erases(j, list[pos], minCost));
      RoundDone(j, cands, next, pos, best, minCost, res, cost, choice);
      VisitStep(j, cands, next, visited);
      visited := visited + [next];
      best := if Better(j, list[pos], minCost) then next else best;
      if at == |rest| {
        return PastTheEnd, visited, best;
      }
      next := NextVisit(j, cands, next);
      list, pos, minCost, res := rest, at + 1, cost, choice;
    }
    if SomeChoosable(j, cands) {
      EndsOptimal(j, cands, best);
    }
    if minCost == BIGNUM {
      return NoneMeetsCriteria, visited, best;
    }
    pick := Chosen(res.value);
  }
}
