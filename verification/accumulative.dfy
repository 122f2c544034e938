/** The accumulative program (`AccumulativeDiscount`): a record gives three
    volume tiers for one nomenclature group; the company's stored
    accumulated volume decides the tier. Only historical volume counts,
    never the current order. */
module Accumulative {

  import opened Values
  import opened Updates
  import opened Merge
  import Filters

  /** The configured field codes of the accumulative records. */
  datatype AccumulativeCodes = AccumulativeCodes(
    group: string,
    firstLimit: string, firstDiscount: string,
    twoLimit: string, twoDiscount: string,
    threeLimit: string, threeDiscount: string)

  /** The seven fields `check_input_date` requires of an accumulative record. */
  function InputDate(c: AccumulativeCodes): (fields: seq<string>)
    ensures |fields| == 7
  {
    [c.group, c.firstLimit, c.firstDiscount, c.twoLimit, c.twoDiscount, c.threeLimit, c.threeDiscount]
  }

  /** Tier one is [lower1, lower2), tier two [lower2, lower3), tier three
      [lower3, infinity). */
  datatype Tiers = Tiers(lower1: real, lower2: real, lower3: real, percent1: int, percent2: int, percent3: int)

  /** The tier checks in source order: each one that matches overwrites
      what an earlier one set. */
  function Tier(volume: real, t: Tiers): Option<int> {
    var afterOne := if t.lower1 <= volume < t.lower2 then Some(t.percent1) else None;
    var afterTwo := if t.lower2 <= volume < t.lower3 then Some(t.percent2) else afterOne;
    if t.lower3 <= volume then Some(t.percent3) else afterTwo
  }

  /** The tier chosen is the highest-numbered tier whose interval holds the
      volume; with no such tier, none. */
  lemma TierIsHighestMatching(volume: real, t: Tiers)
    ensures Tier(volume, t).None? <==>
              !(t.lower1 <= volume < t.lower2) && !(t.lower2 <= volume < t.lower3) && volume < t.lower3
    ensures t.lower3 <= volume ==> Tier(volume, t) == Some(t.percent3)
    ensures volume < t.lower3 && t.lower2 <= volume ==> Tier(volume, t) == Some(t.percent2)
    ensures volume < t.lower2 && volume < t.lower3 && t.lower1 <= volume ==> Tier(volume, t) == Some(t.percent1)
  {
  }

  /** With ascending lower bounds the tiers partition [lower1, infinity):
      any volume from lower1 on lands in exactly the tier that holds it. */
  lemma TierOrdered(volume: real, t: Tiers)
    requires t.lower1 <= t.lower2 <= t.lower3
    ensures volume < t.lower1 ==> Tier(volume, t) == None
    ensures t.lower1 <= volume < t.lower2 ==> Tier(volume, t) == Some(t.percent1)
    ensures t.lower2 <= volume < t.lower3 ==> Tier(volume, t) == Some(t.percent2)
    ensures t.lower3 <= volume ==> Tier(volume, t) == Some(t.percent3)
  {
  }

  /** Tiers 0 / 1000 / 5000 with 5, 10 and 15 percent: a volume of 6000
      reaches tier three, 500 stays in tier one, 1000 opens tier two. A record
      holding the number 0 as its first limit never gets this far
      (`FirstLimitZeroDropped`); the table reaches the evaluator only when
      that limit is stored as text. */
  lemma TierExample()
    ensures Tier(6000.0, Tiers(0.0, 1000.0, 5000.0, 5, 10, 15)) == Some(15)
    ensures Tier(500.0, Tiers(0.0, 1000.0, 5000.0, 5, 10, 15)) == Some(5)
    ensures Tier(1000.0, Tiers(0.0, 1000.0, 5000.0, 5, 10, 15)) == Some(10)
  {
  }

  /** The number 0 is falsy, so `check_input_date` deletes a record whose
      first limit is the number 0 (integer or decimal) before
      `calculate_discounts` sees it: a first tier starting at 0 is dropped
      with its record. */
  lemma FirstLimitZeroDropped(r: Record, c: AccumulativeCodes)
    requires c.firstLimit in r && (r[c.firstLimit] == Int(0) || r[c.firstLimit] == Dec(0.0))
    ensures Filters.Filter([r], Filters.Required(InputDate(c))) == []
  {
    var fields := InputDate(c);
    assert fields[1] == c.firstLimit && !Truthy(r[fields[1]]);
    assert !Filters.Keeps(Filters.Required(fields), r);
    assert [r][1..] == [];
  }

  /** Stored as the text "0", the same limit passes `check_input_date` (the other
      six fields being present and truthy) and opens tier one at 0. */
  lemma FirstLimitTextZeroKept(r: Record, c: AccumulativeCodes)
    requires c.firstLimit in r && r[c.firstLimit] == Text("0")
    requires forall j :: 0 <= j < 7 && j != 1 ==> InputDate(c)[j] in r && Truthy(r[InputDate(c)[j]])
    ensures Filters.Filter([r], Filters.Required(InputDate(c))) == [r]
    ensures ParseTiers(r, c).Ok? ==> ParseTiers(r, c).value.lower1 == 0.0
  {
    var fields := InputDate(c);
    assert fields[1] == c.firstLimit && Truthy(r[fields[1]]);
    assert Filters.Keeps(Filters.Required(fields), r);
    assert [r][1..] == [];
    ParseIntZero();
  }

  /** The record's tier table, converted field by field in source order
      (`record[code]` raises KeyError for a missing code). The source
      converts the second and third limits twice, with the same outcome. */
  function ParseTiers(r: Record, c: AccumulativeCodes): Result<Tiers> {
    var v1 :- Index(r, c.firstLimit);
    var lower1 :- ToDecimal(v1);
    var v2 :- Index(r, c.twoLimit);
    var upper1 :- ToDecimal(v2);
    var d1 :- Index(r, c.firstDiscount);
    var percent1 :- ToInt(d1);
    var lower2 := upper1;
    var v3 :- Index(r, c.threeLimit);
    var upper2 :- ToDecimal(v3);
    var d2 :- Index(r, c.twoDiscount);
    var percent2 :- ToInt(d2);
    var lower3 := upper2;
    var d3 :- Index(r, c.threeDiscount);
    var percent3 :- ToInt(d3);
    Ok(Tiers(lower1, lower2, lower3, percent1, percent2, percent3))
  }

  /** The group a record applies to: its group field must denote an active
      group. */
  function TargetOf(r: Record, c: AccumulativeCodes, active: map<int, real>): Option<int> {
    GroupIn(Get(r, c.group), active)
  }

  /** One iteration of the loop of `calculate_discounts`. `stored` is the
      company's accumulated volume on the portal, if one is recorded. */
  function Step(c: AccumulativeCodes, active: map<int, real>, stored: Option<real>): Record -> Result<seq<Update>> {
    r =>
      match TargetOf(r, c, active)
      case None => Ok([])
      case Some(g) =>
        if stored.None? then Ok([])
        else
          var tiers :- ParseTiers(r, c);
          match Tier(stored.value, tiers)
          case Some(percent) => Ok([Update(g, percent)])
          case None => Ok([])
  }

  /** `AccumulativeDiscount.calculate_discounts`. */
  function AccumulativeCandidates(rs: seq<Record>, c: AccumulativeCodes, active: map<int, real>, stored: Option<real>)
    : Result<Discounts>
  {
    var ups :- Collect(rs, Step(c, active, stored));
    Ok(Apply(map[], ups))
  }

  /** Without a stored volume the program proposes nothing, and its records'
      tier fields are never read. */
  lemma NoVolumeNoCandidates(rs: seq<Record>, c: AccumulativeCodes, active: map<int, real>)
    ensures AccumulativeCandidates(rs, c, active, None) == Ok(map[])
  {
    NoVolumeNothingCollected(rs, c, active);
  }

  lemma {:induction false} NoVolumeNothingCollected(rs: seq<Record>, c: AccumulativeCodes, active: map<int, real>)
    ensures Collect(rs, Step(c, active, None)) == Ok([])
    decreases |rs|
  {
    if rs != [] {
      var step := Step(c, active, None);
      NoVolumeNothingCollected(rs[1..], c, active);
      assert step(rs[0]) == Ok([]) by {
        match TargetOf(rs[0], c, active)
        case None =>
        case Some(g) =>
      }
      assert Collect(rs, step) == Ok(step(rs[0]).value + Collect(rs[1..], step).value);
      assert step(rs[0]).value + Collect(rs[1..], step).value == [];
      assert Collect(rs, step) == Ok([]);
    }
  }

  /** A group gets a candidate exactly when some record for that active
      group has a tier holding the stored volume; the candidate is the
      tier percent of the last such record. */
  lemma AccumulativeLastWins(rs: seq<Record>, c: AccumulativeCodes, active: map<int, real>, volume: real, g: int)
    requires AccumulativeCandidates(rs, c, active, Some(volume)).Ok?
    ensures var m := AccumulativeCandidates(rs, c, active, Some(volume)).value;
      && (g in m <==> exists i :: 0 <= i < |rs| && TargetOf(rs[i], c, active) == Some(g)
                                 && Tier(volume, ParseTiers(rs[i], c).value).Some?)
      && (g in m ==> g in active)
      && (g in m ==> exists i :: 0 <= i < |rs| && TargetOf(rs[i], c, active) == Some(g)
                      && Tier(volume, ParseTiers(rs[i], c).value) == Some(m[g])
                      && forall j :: i < j < |rs| ==> !(TargetOf(rs[j], c, active) == Some(g)
                                                        && Tier(volume, ParseTiers(rs[j], c).value).Some?))
  {
    var step := Step(c, active, Some(volume));
    var ups := Collect(rs, step).value;
    CollectLastFor(rs, step, g);
    ApplyLastWins(map[], ups, g);
    forall i | 0 <= i < |rs|
      ensures TargetOf(rs[i], c, active).Some? ==> ParseTiers(rs[i], c).Ok?
      ensures LastFor(step(rs[i]).value, g).Some? <==>
                TargetOf(rs[i], c, active) == Some(g) && Tier(volume, ParseTiers(rs[i], c).value).Some?
      ensures LastFor(step(rs[i]).value, g).Some? ==>
                Tier(volume, ParseTiers(rs[i], c).value) == LastFor(step(rs[i]).value, g)
    {
      var out := step(rs[i]).value;
      if TargetOf(rs[i], c, active).Some? && Tier(volume, ParseTiers(rs[i], c).value).Some? {
        assert out == [Update(TargetOf(rs[i], c, active).value, Tier(volume, ParseTiers(rs[i], c).value).value)];
        assert out[..0] == [];
      } else {
        assert out == [];
      }
    }
  }
}
