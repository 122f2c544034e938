/** The invoice-threshold program (`InvoiceDiscount`): the records are
    (threshold, percent) brackets; the active groups' totals are summed into
    one invoice total, and the bracket it falls in gives every active group
    the same percent. */
module Invoice {

  import opened Values
  import opened Money
  import opened Merge

  /** One bracket: from `threshold` on, `percent` applies. */
  datatype Limit = Limit(threshold: real, percent: int)

  predicate Sorted(limits: seq<Limit>) {
    forall i, j :: 0 <= i < j < |limits| ==> limits[i].threshold <= limits[j].threshold
  }

  /** The field holding a threshold: a bracket's here, an offer's in the
      inline sum-invoice rule. */
  const OpportunityCode := "opportunity"

  /** The bracket one record contributes: its threshold rounded to cents and
      its percent. */
  function RecordLimit(r: Record, codeDiscount: string): Result<Limit> {
    var threshold :- ToDecimal(Get(r, OpportunityCode));
    var percent :- VerbatimPercent(Get(r, codeDiscount));
    Ok(Limit(Round2(threshold), percent))
  }

  /** The records' brackets, in record order; the first failing record aborts. */
  function RecordLimits(rs: seq<Record>, codeDiscount: string): (r: Result<seq<Limit>>)
    ensures r.Ok? ==> |r.value| == |rs|
    ensures r.Ok? ==> forall i :: 0 <= i < |rs| ==> RecordLimit(rs[i], codeDiscount) == Ok(r.value[i])
    ensures r.Err? <==> exists i :: 0 <= i < |rs| && RecordLimit(rs[i], codeDiscount).Err?
    decreases |rs|
  {
    if rs == [] then Ok([])
    else
      var first :- RecordLimit(rs[0], codeDiscount);
      var rest :- RecordLimits(rs[1..], codeDiscount);
      assert forall i :: 1 <= i < |rs| ==> rs[i] == rs[1..][i - 1];
      Ok([first] + rest)
  }

  /** Places a bracket after every bracket whose threshold is not above its
      own, so brackets with equal thresholds keep their arrival order. */
  function Insert(x: Limit, s: seq<Limit>): (r: seq<Limit>)
    ensures multiset(r) == multiset(s) + multiset{x}
    decreases |s|
  {
    if s == [] then [x]
    else if x.threshold < s[0].threshold then [x] + s
    else
      assert s == [s[0]] + s[1..];
      [s[0]] + Insert(x, s[1..])
  }

  lemma {:induction false} InsertSorted(x: Limit, s: seq<Limit>)
    requires Sorted(s)
    ensures Sorted(Insert(x, s))
    decreases |s|
  {
    if s != [] && x.threshold >= s[0].threshold {
      var tail := Insert(x, s[1..]);
      InsertSorted(x, s[1..]);
      forall k | 0 <= k < |tail|
        ensures s[0].threshold <= tail[k].threshold
      {
        assert tail[k] in multiset(tail);
        assert tail[k] in multiset(s[1..]) + multiset{x};
        if tail[k] != x {
          assert tail[k] in s[1..];
        }
      }
    }
  }

  /** `list.sort(key=threshold)`, an insertion sort. */
  function SortLimits(s: seq<Limit>): (r: seq<Limit>)
    ensures multiset(r) == multiset(s)
    ensures Sorted(r)
    decreases |s|
  {
    if s == [] then []
    else
      var init := s[..|s| - 1];
      assert s == init + [s[|s| - 1]];
      InsertSorted(s[|s| - 1], SortLimits(init));
      Insert(s[|s| - 1], SortLimits(init))
  }

  /** `set_limits`: the floor bracket (0, 0) and one bracket per record,
      ascending by threshold. */
  function SetLimits(rs: seq<Record>, codeDiscount: string): (r: Result<seq<Limit>>)
    ensures r.Err? <==> exists i :: 0 <= i < |rs| && RecordLimit(rs[i], codeDiscount).Err?
    ensures r.Ok? ==> RecordLimits(rs, codeDiscount).Ok?
    ensures r.Ok? ==> Sorted(r.value)
    ensures r.Ok? ==> multiset(r.value) == multiset{Limit(0.0, 0)} + multiset(RecordLimits(rs, codeDiscount).value)
  {
    var pairs :- RecordLimits(rs, codeDiscount);
    SetLimitsOk(pairs);
    Ok(SortLimits([Limit(0.0, 0)] + pairs))
  }

  lemma SetLimitsOk(pairs: seq<Limit>)
    ensures multiset([Limit(0.0, 0)] + pairs) == multiset{Limit(0.0, 0)} + multiset(pairs)
  {
  }

  /** The percent the loop of `calculate_discounts` picks: that of the first
      bracket `i` with threshold(i) <= total < threshold(i + 1), or else that
      of the last bracket; 0 for no brackets at all. */
  function Bracket(limits: seq<Limit>, total: real): int {
    BracketFrom(limits, total, 0)
  }

  function BracketFrom(limits: seq<Limit>, total: real, i: nat): int
    decreases |limits| - i
  {
    if i >= |limits| then 0
    else if i + 1 == |limits| then limits[i].percent
    else if limits[i].threshold <= total < limits[i + 1].threshold then limits[i].percent
    else BracketFrom(limits, total, i + 1)
  }

  /** On a sorted table the loop picks the highest bracket the total
      reaches: the last one whose threshold is not above the total. */
  lemma BracketIsHighestReached(limits: seq<Limit>, total: real)
    requires Sorted(limits) && limits != [] && limits[0].threshold <= total
    ensures exists j :: 0 <= j < |limits| && Bracket(limits, total) == limits[j].percent
              && limits[j].threshold <= total
              && forall k :: j < k < |limits| ==> total < limits[k].threshold
  {
    BracketFromReached(limits, total, 0);
  }

  lemma {:induction false} BracketFromReached(limits: seq<Limit>, total: real, i: nat)
    requires Sorted(limits) && i < |limits| && limits[i].threshold <= total
    ensures exists j :: i <= j < |limits| && BracketFrom(limits, total, i) == limits[j].percent
              && limits[j].threshold <= total
              && forall k :: j < k < |limits| ==> total < limits[k].threshold
    decreases |limits| - i
  {
    if i + 1 == |limits| {
      assert BracketFrom(limits, total, i) == limits[i].percent;
    } else if total < limits[i + 1].threshold {
      assert BracketFrom(limits, total, i) == limits[i].percent;
      assert forall k :: i < k < |limits| ==> limits[i + 1].threshold <= limits[k].threshold;
    } else {
      BracketFromReached(limits, total, i + 1);
    }
  }

  /** A total below every threshold (a negative invoice) matches no bracket,
      and the loop falls through to the last, highest one. */
  lemma BracketBelowAll(limits: seq<Limit>, total: real)
    requires Sorted(limits) && limits != [] && total < limits[0].threshold
    ensures Bracket(limits, total) == limits[|limits| - 1].percent
  {
    BracketFromBelow(limits, total, 0);
  }

  lemma {:induction false} BracketFromBelow(limits: seq<Limit>, total: real, i: nat)
    requires Sorted(limits) && i < |limits| && total < limits[0].threshold
    ensures BracketFrom(limits, total, i) == limits[|limits| - 1].percent
    decreases |limits| - i
  {
    if i + 1 < |limits| {
      assert limits[0].threshold <= limits[i].threshold;
      BracketFromBelow(limits, total, i + 1);
    }
  }

  /** `InvoiceDiscount.calculate_discounts`: no active group, no candidate;
      otherwise every active group gets the one percent of the bracket the
      summed active totals fall in. */
  function InvoiceCandidates(active: map<int, real>, limits: seq<Limit>): (r: Discounts)
    ensures active == map[] ==> r == map[]
    ensures r.Keys == active.Keys
    ensures forall g :: g in r ==> r[g] == Bracket(limits, SumValues(active))
  {
    if active == map[] then map[]
    else
      var total := SumValues(active);
      var percent := Bracket(limits, total);
      map g | g in active :: percent
  }

  /** The brackets 0 -> 0, 1000 -> 5, 5000 -> 10 are lower-inclusive and
      upper-exclusive. */
  lemma InvoiceThresholdExample(g: int)
    ensures InvoiceCandidates(map[g := 999.99], [Limit(0.0, 0), Limit(1000.0, 5), Limit(5000.0, 10)]) == map[g := 0]
    ensures InvoiceCandidates(map[g := 1000.0], [Limit(0.0, 0), Limit(1000.0, 5), Limit(5000.0, 10)]) == map[g := 5]
    ensures InvoiceCandidates(map[g := 5000.0], [Limit(0.0, 0), Limit(1000.0, 5), Limit(5000.0, 10)]) == map[g := 10]
  {
    assert SumValues(map[g := 999.99]) == 999.99 by { SumValuesRemove(map[g := 999.99], g); }
    assert SumValues(map[g := 1000.0]) == 1000.0 by { SumValuesRemove(map[g := 1000.0], g); }
    assert SumValues(map[g := 5000.0]) == 5000.0 by { SumValuesRemove(map[g := 5000.0], g); }
  }
}
