/** The discount merger (`Discount.compare_discounts`): every program's
    candidate percents are folded into the one running map of the run, a
    group keeping the larger of its old and its new percent. */
module Merge {

  import opened Values

  /** Discount percent per nomenclature group id. */
  type Discounts = map<int, int>

  /** The running map once the candidates are folded in: the key-wise least
      upper bound of the two maps. */
  function Merged(running: Discounts, candidates: Discounts): (r: Discounts)
    ensures r.Keys == running.Keys + candidates.Keys
    ensures forall g :: g in running ==> r[g] >= running[g]
    ensures forall g :: g in candidates ==> r[g] >= candidates[g]
    ensures forall g :: g in r ==>
              (g in running && r[g] == running[g]) || (g in candidates && r[g] == candidates[g])
  {
    map g | g in running.Keys + candidates.Keys ::
      if g in candidates && (g !in running || running[g] <= candidates[g])
      then candidates[g] else running[g]
  }

  /** `compare_discounts`: the in-place pass over the candidate items, which
      inserts a missing group, skips a smaller percent and otherwise
      overwrites, leaves exactly the merged map. */
  method CompareDiscounts(discounts: Discounts, calculated: Discounts) returns (r: Discounts)
    ensures r == Merged(discounts, calculated)
  {
    if calculated == map[] {
      assert Merged(discounts, calculated) == discounts;
      return discounts;
    }
    r := discounts;
    var pending := calculated.Keys;
    while pending != {}
      invariant pending <= calculated.Keys
      invariant r.Keys == discounts.Keys + (calculated.Keys - pending)
      invariant forall g :: g in r ==> r[g] == Merged(discounts, calculated - pending)[g]
      decreases pending
    {
      NonEmptyHasElement(pending);
      var key :| key in pending;
      var value := calculated[key];
      if key !in r {
        r := r[key := value];
      } else if value < r[key] {
      } else {
        r := r[key := value];
      }
      pending := pending - {key};
    }
    assert calculated - pending == calculated;
    var full := Merged(discounts, calculated);
    assert r.Keys == full.Keys;
    assert forall g :: g in r ==> r[g] == full[g];
  }

  /** Folding in no candidates changes nothing. */
  lemma MergeEmpty(running: Discounts)
    ensures Merged(running, map[]) == running
  {
  }

  /** Folding the same candidates in twice is folding them in once. */
  lemma MergeIdempotent(running: Discounts, candidates: Discounts)
    ensures Merged(Merged(running, candidates), candidates) == Merged(running, candidates)
  {
  }

  /** Two programs' candidates can be folded in either order. */
  lemma MergeCommutes(running: Discounts, a: Discounts, b: Discounts)
    ensures Merged(Merged(running, a), b) == Merged(Merged(running, b), a)
  {
  }

  /** Folding in `a` then `b` is folding in their merge. */
  lemma MergeAssociates(running: Discounts, a: Discounts, b: Discounts)
    ensures Merged(Merged(running, a), b) == Merged(running, Merged(a, b))
  {
  }

  /** The running map after the programs' candidates are folded in, one
      program after another. */
  function MergeAll(running: Discounts, programs: seq<Discounts>): Discounts
    decreases |programs|
  {
    if programs == [] then running
    else MergeAll(Merged(running, programs[0]), programs[1..])
  }

  /** Within a run no group loses its discount and no percent decreases,
      however many programs are folded in. */
  lemma {:induction false} MergeAllMonotone(running: Discounts, programs: seq<Discounts>)
    ensures running.Keys <= MergeAll(running, programs).Keys
    ensures forall g :: g in running ==> MergeAll(running, programs)[g] >= running[g]
    decreases |programs|
  {
    if programs != [] {
      MergeAllMonotone(Merged(running, programs[0]), programs[1..]);
    }
  }

  /** Every program's candidate is a lower bound of the final percent of
      its group: the final map dominates each program's output. */
  lemma {:induction false} MergeAllDominates(running: Discounts, programs: seq<Discounts>, k: nat)
    requires k < |programs|
    ensures programs[k].Keys <= MergeAll(running, programs).Keys
    ensures forall g :: g in programs[k] ==> MergeAll(running, programs)[g] >= programs[k][g]
    decreases |programs|
  {
    var next := Merged(running, programs[0]);
    if k == 0 {
      MergeAllMonotone(next, programs[1..]);
    } else {
      MergeAllDominates(next, programs[1..], k - 1);
    }
  }

  /** Every final percent was there to begin with: the running map's own, or
      some program's candidate. With MergeAllDominates, the final percent
      is the largest of them. */
  lemma {:induction false} MergeAllAttained(running: Discounts, programs: seq<Discounts>, g: int)
    requires g in MergeAll(running, programs)
    ensures (g in running && MergeAll(running, programs)[g] == running[g])
            || exists k :: 0 <= k < |programs| && g in programs[k] && MergeAll(running, programs)[g] == programs[k][g]
    decreases |programs|
  {
    if programs != [] {
      var final := MergeAll(running, programs);
      var next := Merged(running, programs[0]);
      MergeAllAttained(next, programs[1..], g);
      if g in next && final[g] == next[g] {
        if !(g in running && final[g] == running[g]) {
          assert g in programs[0] && final[g] == programs[0][g];
        }
      } else {
        var k :| 0 <= k < |programs[1..]| && g in programs[1..][k] && final[g] == programs[1..][k][g];
        assert programs[k + 1] == programs[1..][k];
      }
    }
  }
}
