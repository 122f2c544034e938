/** The inline programs of the `calculation` view: the partner rule and the
    sum-invoice rule, which write into the one discount map of the view, and
    the per-product map. */
module Inline {

  import opened Values
  import opened Updates
  import opened Merge
  import Partner
  import Invoice

  /** The field every smart-process element's log line reads with
      `element['title']`: an element without it aborts the view. */
  const TitleCode := "title"

  /** The group an inline partner element sets a percent for, if any: the
      element's company type must equal the deal company's type, and its
      group must have a total. The fields are read with `element[code]`;
      the title is read for the log line in either branch. */
  function PartnerTarget(r: Record, c: Partner.PartnerCodes, companyType: string, totals: map<int, real>): (t: Result<Option<int>>)
    ensures t.Err? <==> c.companyType !in r || TitleCode !in r
                        || (r[c.companyType] == Text(companyType) && c.group !in r)
    ensures t.Ok? && t.value.Some? ==> t.value.value in totals
    ensures t.Ok? ==> (t.value.Some? <==> r[c.companyType] == Text(companyType) && GroupIn(r[c.group], totals).Some?)
    ensures t.Ok? && t.value.Some? ==> t.value == GroupIn(r[c.group], totals)
  {
    var kind :- Index(r, c.companyType);
    var title :- Index(r, TitleCode);
    if kind != Text(companyType) then Ok(None)
    else
      var group :- Index(r, c.group);
      Ok(GroupIn(group, totals))
  }

  /** One iteration of the inline partner loop. */
  function PartnerStep(c: Partner.PartnerCodes, companyType: string, totals: map<int, real>): Record -> Result<seq<Update>> {
    r =>
      var target :- PartnerTarget(r, c, companyType, totals);
      match target
      case None => Ok([])
      case Some(g) =>
        var raw :- Index(r, c.discount);
        var percent :- ToInt(raw);
        Ok([Update(g, percent)])
  }

  /** The inline partner block: starts the view's discount map afresh. */
  function InlinePartner(rs: seq<Record>, c: Partner.PartnerCodes, companyType: string, totals: map<int, real>): Result<Discounts> {
    var ups :- Collect(rs, PartnerStep(c, companyType, totals));
    Ok(Apply(map[], ups))
  }

  /** A group gets a percent exactly when some element of the deal
      company's type names it and it has a total; the percent is int() of
      the discount field of the last such element. */
  lemma InlinePartnerLastWins(rs: seq<Record>, c: Partner.PartnerCodes, companyType: string, totals: map<int, real>, g: int)
    requires InlinePartner(rs, c, companyType, totals).Ok?
    ensures var m := InlinePartner(rs, c, companyType, totals).value;
      && (g in m <==> exists i :: 0 <= i < |rs| && PartnerTarget(rs[i], c, companyType, totals) == Ok(Some(g)))
      && (g in m ==> g in totals)
      && (g in m ==> exists i :: 0 <= i < |rs| && PartnerTarget(rs[i], c, companyType, totals) == Ok(Some(g))
                      && c.discount in rs[i] && ToInt(rs[i][c.discount]) == Ok(m[g])
                      && forall j :: i < j < |rs| ==> PartnerTarget(rs[j], c, companyType, totals) != Ok(Some(g)))
  {
    var step := PartnerStep(c, companyType, totals);
    var ups := Collect(rs, step).value;
    CollectLastFor(rs, step, g);
    ApplyLastWins(map[], ups, g);
    forall i | 0 <= i < |rs|
      ensures PartnerTarget(rs[i], c, companyType, totals).Ok?
      ensures LastFor(step(rs[i]).value, g).Some? <==> PartnerTarget(rs[i], c, companyType, totals) == Ok(Some(g))
      ensures LastFor(step(rs[i]).value, g).Some? ==>
                c.discount in rs[i] && ToInt(rs[i][c.discount]) == Ok(LastFor(step(rs[i]).value, g).value)
    {
      var out := step(rs[i]).value;
      var target := PartnerTarget(rs[i], c, companyType, totals).value;
      if target.Some? {
        assert out == [Update(target.value, ToInt(rs[i][c.discount]).value)];
        assert out[..0] == [];
      } else {
        assert out == [];
      }
    }
  }

  /** The configured field codes of the sum-invoice elements. */
  datatype SumInvoiceCodes = SumInvoiceCodes(group: string, discount: string)


  /** What one sum-invoice element offers: a percent for its group, when
      the group has a total and the element's threshold does not exceed it.
      The title is read first, for the log line. */
  function Offer(r: Record, c: SumInvoiceCodes, totals: map<int, real>): (o: Result<Option<Update>>)
    ensures o.Ok? ==> TitleCode in r && c.group in r
    ensures o.Ok? && o.value.Some? ==> o.value.value.key in totals
    ensures o.Ok? && o.value.Some? ==>
              && GroupIn(r[c.group], totals) == Some(o.value.value.key)
              && Invoice.OpportunityCode in r && ToDecimal(r[Invoice.OpportunityCode]).Ok?
              && ToDecimal(r[Invoice.OpportunityCode]).value <= totals[o.value.value.key]
              && c.discount in r && VerbatimPercent(r[c.discount]) == Ok(o.value.value.percent)
    ensures o.Ok? && o.value.None? && GroupIn(r[c.group], totals).Some? ==>
              && Invoice.OpportunityCode in r && ToDecimal(r[Invoice.OpportunityCode]).Ok?
              && ToDecimal(r[Invoice.OpportunityCode]).value > totals[GroupIn(r[c.group], totals).value]
  {
    var title :- Index(r, TitleCode);
    var group :- Index(r, c.group);
    match GroupIn(group, totals)
    case None => Ok(None)
    case Some(g) =>
      var raw :- Index(r, Invoice.OpportunityCode);
      var threshold :- ToDecimal(raw);
      if threshold > totals[g] then Ok(None)
      else
        var percent :- Index(r, c.discount);
        var p :- VerbatimPercent(percent);
        Ok(Some(Update(g, p)))
  }

  /** The sum-invoice loop over the view's discount map: an offer is written
      only when its group has no percent yet or a smaller one. */
  function SumInvoice(d: Discounts, rs: seq<Record>, c: SumInvoiceCodes, totals: map<int, real>): (r: Result<Discounts>)
    ensures r.Err? <==> exists i :: 0 <= i < |rs| && Offer(rs[i], c, totals).Err?
    decreases |rs|
  {
    if rs == [] then Ok(d)
    else
      var offer :- Offer(rs[0], c, totals);
      assert forall i :: 1 <= i < |rs| ==> rs[i] == rs[1..][i - 1];
      match offer
      case None => SumInvoice(d, rs[1..], c, totals)
      case Some(u) =>
        if u.key in d && d[u.key] >= u.percent then SumInvoice(d, rs[1..], c, totals)
        else SumInvoice(d[u.key := u.percent], rs[1..], c, totals)
  }

  /** An offer as a candidate map: empty, or its one group. */
  function OfferMap(o: Option<Update>): Discounts {
    match o
    case None => map[]
    case Some(u) => map[u.key := u.percent]
  }

  /** The candidate maps of the elements under `offer`, in element order;
      the first failing element aborts. */
  function OfferMapsWith(rs: seq<Record>, offer: Record -> Result<Option<Update>>): (r: Result<seq<Discounts>>)
    ensures r.Ok? ==> |r.value| == |rs|
    ensures r.Ok? ==> forall i :: 0 <= i < |rs| ==> offer(rs[i]).Ok? && r.value[i] == OfferMap(offer(rs[i]).value)
    decreases |rs|
  {
    if rs == [] then Ok([])
    else
      var first :- offer(rs[0]);
      var rest :- OfferMapsWith(rs[1..], offer);
      var maps := [OfferMap(first)] + rest;
      assert forall i :: 1 <= i < |rs| ==> rs[i] == rs[1..][i - 1] && maps[i] == rest[i - 1];
      Ok(maps)
  }

  /** The elements' offers as candidate maps, in element order. */
  function OfferMaps(rs: seq<Record>, c: SumInvoiceCodes, totals: map<int, real>): (r: Result<seq<Discounts>>)
    ensures r.Ok? ==> |r.value| == |rs|
    ensures r.Ok? ==> forall i :: 0 <= i < |rs| ==>
              Offer(rs[i], c, totals).Ok? && r.value[i] == OfferMap(Offer(rs[i], c, totals).value)
  {
    OfferMapsWith(rs, r => Offer(r, c, totals))
  }

  /** The sum-invoice loop is the keep-the-larger merge of its offers, one
      element after another, into the discount map it starts from. */
  lemma {:induction false} SumInvoiceIsMerge(d: Discounts, rs: seq<Record>, c: SumInvoiceCodes, totals: map<int, real>)
    requires SumInvoice(d, rs, c, totals).Ok?
    ensures OfferMaps(rs, c, totals).Ok?
    ensures SumInvoice(d, rs, c, totals).value == MergeAll(d, OfferMaps(rs, c, totals).value)
    decreases |rs|
  {
    if rs != [] {
      var offer := Offer(rs[0], c, totals).value;
      var next := Merged(d, OfferMap(offer));
      match offer
      case None =>
        MergeEmpty(d);
        SumInvoiceIsMerge(d, rs[1..], c, totals);
      case Some(u) =>
        if u.key in d && d[u.key] >= u.percent {
          assert next == d;
          SumInvoiceIsMerge(d, rs[1..], c, totals);
        } else {
          assert next == d[u.key := u.percent];
          SumInvoiceIsMerge(d[u.key := u.percent], rs[1..], c, totals);
        }
    }
  }

  /** The sum-invoice loop never lowers or removes an earlier percent. */
  lemma SumInvoiceNeverLowers(d: Discounts, rs: seq<Record>, c: SumInvoiceCodes, totals: map<int, real>)
    requires SumInvoice(d, rs, c, totals).Ok?
    ensures d.Keys <= SumInvoice(d, rs, c, totals).value.Keys
    ensures forall g :: g in d ==> SumInvoice(d, rs, c, totals).value[g] >= d[g]
  {
    SumInvoiceIsMerge(d, rs, c, totals);
    MergeAllMonotone(d, OfferMaps(rs, c, totals).value);
  }

  /** Every qualifying offer is reached: its group ends with at least the
      offered percent. */
  lemma SumInvoiceReachesOffer(d: Discounts, rs: seq<Record>, c: SumInvoiceCodes, totals: map<int, real>, i: nat)
    requires SumInvoice(d, rs, c, totals).Ok?
    requires i < |rs|
    ensures Offer(rs[i], c, totals).Ok?
    ensures var o := Offer(rs[i], c, totals).value;
      var m := SumInvoice(d, rs, c, totals).value;
      o.Some? ==> o.value.key in m && m[o.value.key] >= o.value.percent
  {
    SumInvoiceIsMerge(d, rs, c, totals);
    MergeAllDominates(d, OfferMaps(rs, c, totals).value, i);
  }

  /** Every percent after the loop is the earlier percent of its group or
      the offer of some element: with the two lemmas above, the largest of
      them. */
  lemma SumInvoiceAttained(d: Discounts, rs: seq<Record>, c: SumInvoiceCodes, totals: map<int, real>, g: int)
    requires SumInvoice(d, rs, c, totals).Ok?
    requires g in SumInvoice(d, rs, c, totals).value
    ensures var m := SumInvoice(d, rs, c, totals).value;
      (g in d && m[g] == d[g]) || exists i :: 0 <= i < |rs| && Offer(rs[i], c, totals) == Ok(Some(Update(g, m[g])))
  {
    SumInvoiceIsMerge(d, rs, c, totals);
    var offers := OfferMaps(rs, c, totals).value;
    var m := SumInvoice(d, rs, c, totals).value;
    MergeAllAttained(d, offers, g);
    if !(g in d && m[g] == d[g]) {
      var k :| 0 <= k < |offers| && g in offers[k] && m[g] == offers[k][g];
      OfferMapEntry(rs, c, totals, k, g);
    }
  }

  lemma OfferMapEntry(rs: seq<Record>, c: SumInvoiceCodes, totals: map<int, real>, k: nat, g: int)
    requires OfferMaps(rs, c, totals).Ok? && k < |rs| && g in OfferMaps(rs, c, totals).value[k]
    ensures Offer(rs[k], c, totals) == Ok(Some(Update(g, OfferMaps(rs, c, totals).value[k][g])))
  {
    var o := Offer(rs[k], c, totals).value;
    assert OfferMaps(rs, c, totals).value[k] == OfferMap(o);
  }

  /** An element whose threshold is above its group's total offers nothing;
      one at exactly the total qualifies. */
  lemma OfferThresholdExample(g: int)
    ensures Offer(map["title" := Text("A"), "group" := Int(g), "opportunity" := Int(1000), "discount" := Int(8)],
                  SumInvoiceCodes("group", "discount"), map[g := 999.99]) == Ok(None)
    ensures Offer(map["title" := Text("A"), "group" := Int(g), "opportunity" := Int(1000), "discount" := Int(8)],
                  SumInvoiceCodes("group", "discount"), map[g := 1000.0]) == Ok(Some(Update(g, 8)))
  {
  }

  /** The title the log lines read is required: one element without it
      aborts both inline loops, whatever its other fields hold. */
  lemma UntitledElementAborts(d: Discounts, rs: seq<Record>, pc: Partner.PartnerCodes, companyType: string,
                              sc: SumInvoiceCodes, totals: map<int, real>, i: nat)
    requires i < |rs| && TitleCode !in rs[i]
    ensures InlinePartner(rs, pc, companyType, totals).Err?
    ensures SumInvoice(d, rs, sc, totals).Err?
  {
    assert PartnerStep(pc, companyType, totals)(rs[i]).Err?;
    assert Offer(rs[i], sc, totals).Err?;
  }

  /** An element of the per-product program: its record and the product
      ids of its product rows. */
  datatype ProductElement = ProductElement(record: Record, productIds: seq<int>)

  /** Assigns one percent to every product id in turn. */
  function AssignAll(ids: seq<int>, percent: int): (ups: seq<Update>)
    ensures |ups| == |ids|
    ensures forall i :: 0 <= i < |ids| ==> ups[i] == Update(ids[i], percent)
  {
    seq(|ids|, i requires 0 <= i < |ids| => Update(ids[i], percent))
  }

  lemma {:induction false} LastForAssignAll(ids: seq<int>, percent: int, k: int)
    ensures LastFor(AssignAll(ids, percent), k) == if k in ids then Some(percent) else None
    decreases |ids|
  {
    if ids != [] {
      var init := ids[..|ids| - 1];
      assert AssignAll(ids, percent)[..|ids| - 1] == AssignAll(init, percent);
      LastForAssignAll(init, percent, k);
      assert ids == init + [ids[|ids| - 1]];
    }
  }

  /** One element of the per-product loop: every product row maps its
      product id to the element's percent, read with `element[code]` once
      per row; an element without product rows reads nothing. */
  function ProductStep(code: string): ProductElement -> Result<seq<Update>> {
    (e: ProductElement) =>
      if e.productIds == [] then Ok([])
      else
        var raw :- Index(e.record, code);
        var percent :- VerbatimPercent(raw);
        Ok(AssignAll(e.productIds, percent))
  }

  /** `all_discounts_products`. */
  function ProductMap(es: seq<ProductElement>, code: string): Result<map<int, int>> {
    var ups :- Collect(es, ProductStep(code));
    Ok(Apply(map[], ups))
  }

  /** A product id is in the map exactly when some element lists it, and
      its percent is that of the last element listing it. */
  lemma ProductMapLastWins(es: seq<ProductElement>, code: string, pid: int)
    requires ProductMap(es, code).Ok?
    ensures var m := ProductMap(es, code).value;
      && (pid in m <==> exists i :: 0 <= i < |es| && pid in es[i].productIds)
      && (pid in m ==> exists i :: 0 <= i < |es| && pid in es[i].productIds
                        && code in es[i].record && VerbatimPercent(es[i].record[code]) == Ok(m[pid])
                        && forall j :: i < j < |es| ==> pid !in es[j].productIds)
  {
    var step := ProductStep(code);
    var ups := Collect(es, step).value;
    CollectLastFor(es, step, pid);
    ApplyLastWins(map[], ups, pid);
    forall i | 0 <= i < |es|
      ensures LastFor(step(es[i]).value, pid).Some? <==> pid in es[i].productIds
      ensures LastFor(step(es[i]).value, pid).Some? ==>
                code in es[i].record && VerbatimPercent(es[i].record[code]) == Ok(LastFor(step(es[i]).value, pid).value)
    {
      if es[i].productIds != [] {
        var percent := VerbatimPercent(es[i].record[code]).value;
        LastForAssignAll(es[i].productIds, percent, pid);
      }
    }
  }
}
