/** The partner program (`PartnerDiscount`): a record names a company type,
    a nomenclature group and a percent; after the company-type filter, every
    record whose group has a total proposes its percent for that group, the
    last such record winning. */
module Partner {

  import opened Values
  import opened Updates
  import opened Merge

  /** The configured field codes of the partner records. */
  datatype PartnerCodes = PartnerCodes(discount: string, companyType: string, group: string)

  /** The fields `check_input_date` requires of a partner record. */
  function InputDate(c: PartnerCodes): (fields: seq<string>)
    ensures |fields| == 3
  {
    [c.discount, c.companyType, c.group]
  }

  /** The group a record proposes a percent for: its group field must
      denote a group that has a total. */
  function TargetOf(r: Record, c: PartnerCodes, totals: map<int, real>): Option<int> {
    GroupIn(Get(r, c.group), totals)
  }

  /** One iteration of the loop of `calculate_discounts`. */
  function Step(c: PartnerCodes, totals: map<int, real>): Record -> Result<seq<Update>> {
    r =>
      match TargetOf(r, c, totals)
      case None => Ok([])
      case Some(g) =>
        var percent :- VerbatimPercent(Get(r, c.discount));
        Ok([Update(g, percent)])
  }

  /** `PartnerDiscount.calculate_discounts`. */
  function PartnerCandidates(rs: seq<Record>, c: PartnerCodes, totals: map<int, real>): Result<Discounts> {
    var ups :- Collect(rs, Step(c, totals));
    Ok(Apply(map[], ups))
  }

  /** A group gets a candidate exactly when some record targets it, and the
      candidate is the percent of the last record that does. */
  lemma PartnerLastWins(rs: seq<Record>, c: PartnerCodes, totals: map<int, real>, g: int)
    requires PartnerCandidates(rs, c, totals).Ok?
    ensures var m := PartnerCandidates(rs, c, totals).value;
      && (g in m <==> exists i :: 0 <= i < |rs| && TargetOf(rs[i], c, totals) == Some(g))
      && (g in m ==> exists i :: 0 <= i < |rs| && TargetOf(rs[i], c, totals) == Some(g)
                      && VerbatimPercent(Get(rs[i], c.discount)) == Ok(m[g])
                      && forall j :: i < j < |rs| ==> TargetOf(rs[j], c, totals) != Some(g))
  {
    var step := Step(c, totals);
    var ups := Collect(rs, step).value;
    CollectLastFor(rs, step, g);
    ApplyLastWins(map[], ups, g);
    forall i | 0 <= i < |rs|
      ensures LastFor(step(rs[i]).value, g).Some? <==> TargetOf(rs[i], c, totals) == Some(g)
      ensures LastFor(step(rs[i]).value, g).Some? ==>
                VerbatimPercent(Get(rs[i], c.discount)) == Ok(LastFor(step(rs[i]).value, g).value)
    {
      var out := step(rs[i]).value;
      if TargetOf(rs[i], c, totals).Some? {
        assert out == [Update(TargetOf(rs[i], c, totals).value, VerbatimPercent(Get(rs[i], c.discount)).value)];
        assert out[..0] == [];
      } else {
        assert out == [];
      }
    }
  }

  /** Only groups present in the totals ever get a partner candidate. */
  lemma PartnerKeysInTotals(rs: seq<Record>, c: PartnerCodes, totals: map<int, real>)
    requires PartnerCandidates(rs, c, totals).Ok?
    ensures PartnerCandidates(rs, c, totals).value.Keys <= totals.Keys
  {
    forall g | g in PartnerCandidates(rs, c, totals).value
      ensures g in totals
    {
      PartnerLastWins(rs, c, totals, g);
    }
  }
}
