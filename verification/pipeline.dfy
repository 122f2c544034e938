/** One run of the class-based programs on a small deal: the running
    discount map is threaded through the programs by the merger, then the
    merged map prices a row. */
module Pipeline {

  import opened Values
  import opened Money
  import opened Merge
  import opened Invoice
  import opened Partner
  import opened Pricing

  /** Group totals A (id 1) = 1200 and B (id 2) = 300, both active; a
      partner record gives A 5 percent; the brackets 0 -> 0 and 1000 -> 8
      see the invoice total 1500 and give every active group 8 percent. The
      merged map is A = 8, B = 8, and an A row of 1000 costs 920. */
  lemma TwoProgramsExample()
    ensures var totals := map[1 := 1200.0, 2 := 300.0];
      var codes := PartnerCodes("discount", "type", "group");
      var partner := PartnerCandidates([map["discount" := Int(5), "type" := Text("dealer"), "group" := Int(1)]], codes, totals);
      var invoice := InvoiceCandidates(totals, [Limit(0.0, 0), Limit(1000.0, 8)]);
      && partner == Ok(map[1 := 5])
      && invoice == map[1 := 8, 2 := 8]
      && MergeAll(map[], [partner.value, invoice]) == map[1 := 8, 2 := 8]
      && PriceRow(Row(1, 10, 1000.0, 1000.0), MergeAll(map[], [partner.value, invoice]), None) == Priced(8, 920.0)
  {
    PartnerOneRecord();
    InvoiceTwoGroups();
    MergeTwoPrograms();
  }

  lemma PartnerOneRecord()
    ensures PartnerCandidates([map["discount" := Int(5), "type" := Text("dealer"), "group" := Int(1)]],
                              PartnerCodes("discount", "type", "group"), map[1 := 1200.0, 2 := 300.0])
            == Ok(map[1 := 5])
  {
    var totals := map[1 := 1200.0, 2 := 300.0];
    var codes := PartnerCodes("discount", "type", "group");
    var r: Record := map["discount" := Int(5), "type" := Text("dealer"), "group" := Int(1)];
    var step := Partner.Step(codes, totals);
    assert step(r) == Ok([Updates.Update(1, 5)]);
    assert [r][1..] == [];
    assert Updates.Collect([r][1..], step) == Ok([]);
    assert Updates.Collect([r], step) == Ok([Updates.Update(1, 5)] + []);
  }

  lemma InvoiceTwoGroups()
    ensures InvoiceCandidates(map[1 := 1200.0, 2 := 300.0], [Limit(0.0, 0), Limit(1000.0, 8)]) == map[1 := 8, 2 := 8]
  {
    var totals := map[1 := 1200.0, 2 := 300.0];
    assert SumValues(totals) == 1500.0 by {
      SumValuesRemove(totals, 1);
      assert totals - {1} == map[2 := 300.0];
      SumValuesRemove(map[2 := 300.0], 2);
      assert map[2 := 300.0] - {2} == map[];
    }
  }

  lemma MergeTwoPrograms()
    ensures MergeAll(map[], [map[1 := 5], map[1 := 8, 2 := 8]]) == map[1 := 8, 2 := 8]
  {
    var invoice: Discounts := map[1 := 8, 2 := 8];
    var programs: seq<Discounts> := [map[1 := 5], invoice];
    assert programs[1..] == [invoice];
    assert [invoice][1..] == [];
    var first := Merged(map[], map[1 := 5]);
    assert MergeAll(map[], programs) == MergeAll(first, [invoice]);
    assert MergeAll(first, [invoice]) == MergeAll(Merged(first, invoice), []);
    assert Merged(first, invoice) == invoice;
  }
}
