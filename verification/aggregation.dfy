/** Aggregation of a deal's product rows into per-group totals, as the
    `calculation` view (group tagging, then summing) and the `send_to_db`
    view (summing the rows that have a group) do it. */
module Aggregation {

  import opened Values
  import opened Money

  /** What the catalog returns for a product's nomenclature-group property. */
  datatype GroupProperty =
    | Missing               // the property code is not among the props: KeyError
    | Blank                 // present but falsy (None or empty)
    | Filled(value: Value)  // a property entry; `value` is its 'value' field

  /** One product row of the deal, its decimal fields already read. */
  datatype Line = Line(productId: int, quantity: real, priceBrutto: real, priceAccount: real, property: GroupProperty)

  /** One row's contribution to one group. */
  datatype Entry = Entry(group: int, amount: real)

  /** The group `calculation` tags a row with: 0 for a blank property,
      otherwise int() of its value. */
  function Tag(p: GroupProperty, code: string): Result<int> {
    match p
    case Missing => Err(KeyError(code))
    case Blank => Ok(0)
    case Filled(v) => ToInt(v)
  }

  /** round(quantity, 2) * round(price, 2). */
  function LineAmount(quantity: real, price: real): (a: real)
    ensures IsCents(quantity) && IsCents(price) ==> a == quantity * price
  {
    Round2OfCentsIfCents(quantity);
    Round2OfCentsIfCents(price);
    Round2(quantity) * Round2(price)
  }

  lemma Round2OfCentsIfCents(x: real)
    ensures IsCents(x) ==> Round2(x) == x
  {
    if IsCents(x) {
      Round2OfCents(x);
    }
  }

  /** `calculation`: every row, tagged, contributes its brutto amount; a
      failing tag aborts the view. */
  function CalculationEntries(lines: seq<Line>, code: string): (r: Result<seq<Entry>>)
    ensures r.Err? <==> exists i :: 0 <= i < |lines| && Tag(lines[i].property, code).Err?
    ensures r.Ok? ==> |r.value| == |lines|
    ensures r.Ok? ==> forall i :: 0 <= i < |lines| ==>
              r.value[i] == Entry(Tag(lines[i].property, code).value, LineAmount(lines[i].quantity, lines[i].priceBrutto))
    decreases |lines|
  {
    if lines == [] then Ok([])
    else
      var g :- Tag(lines[0].property, code);
      var rest :- CalculationEntries(lines[1..], code);
      assert forall i :: 1 <= i < |lines| ==> lines[i] == lines[1..][i - 1];
      Ok([Entry(g, LineAmount(lines[0].quantity, lines[0].priceBrutto))] + rest)
  }

  /** The rows `send_to_db` counts: those whose group property is not blank. */
  function Counted(lines: seq<Line>): (r: seq<Line>)
    ensures forall i :: 0 <= i < |r| ==> !r[i].property.Blank?
    decreases |lines|
  {
    if lines == [] then []
    else (if lines[0].property.Blank? then [] else [lines[0]]) + Counted(lines[1..])
  }

  /** The counted rows, each tagged by `tag` and paired with its
      account-price amount, in row order; the first failing tag aborts. */
  function CountedEntries(lines: seq<Line>, tag: GroupProperty -> Result<int>): (r: Result<seq<Entry>>)
    ensures r.Err? <==> exists i :: 0 <= i < |lines| && !lines[i].property.Blank? && tag(lines[i].property).Err?
    ensures r.Ok? ==> |r.value| == |Counted(lines)|
    ensures r.Ok? ==> forall i :: 0 <= i < |r.value| ==>
              var l := Counted(lines)[i];
              tag(l.property).Ok? && r.value[i] == Entry(tag(l.property).value, LineAmount(l.quantity, l.priceAccount))
    decreases |lines|
  {
    if lines == [] then Ok([])
    else
      assert forall i :: 1 <= i < |lines| ==> lines[i] == lines[1..][i - 1];
      if lines[0].property.Blank? then
        assert Counted(lines) == Counted(lines[1..]);
        CountedEntries(lines[1..], tag)
      else
        var g :- tag(lines[0].property);
        var rest :- CountedEntries(lines[1..], tag);
        assert Counted(lines) == [lines[0]] + Counted(lines[1..]);
        Ok([Entry(g, LineAmount(lines[0].quantity, lines[0].priceAccount))] + rest)
  }

  /** `send_to_db`: a row with a blank group property is skipped; every
      other row contributes its account-price amount to its group. */
  function VolumeEntries(lines: seq<Line>, code: string): (r: Result<seq<Entry>>)
    ensures r.Err? <==> exists i :: 0 <= i < |lines| && Tag(lines[i].property, code).Err?
    ensures r.Ok? ==> |r.value| == |Counted(lines)|
    ensures r.Ok? ==> forall i :: 0 <= i < |r.value| ==> Tag(Counted(lines)[i].property, code).Ok?
    ensures r.Ok? ==> forall i :: 0 <= i < |r.value| ==>
              var l := Counted(lines)[i];
              r.value[i] == Entry(Tag(l.property, code).value, LineAmount(l.quantity, l.priceAccount))
  {
    CountedEntries(lines, p => Tag(p, code))
  }

  /** Adds one entry to the running totals: creates the group's total or
      increases it. */
  function AddTo(m: map<int, real>, e: Entry): map<int, real> {
    m[e.group := (if e.group in m then m[e.group] else 0.0) + e.amount]
  }

  /** The totals dictionary both views build, entry by entry in row order. */
  function Totals(es: seq<Entry>): map<int, real>
    decreases |es|
  {
    if es == [] then map[] else AddTo(Totals(es[..|es| - 1]), es[|es| - 1])
  }

  /** Reference definition: the amounts of the entries for group `g`, summed. */
  function GroupSum(es: seq<Entry>, g: int): real
    decreases |es|
  {
    if es == [] then 0.0
    else (if es[0].group == g then es[0].amount else 0.0) + GroupSum(es[1..], g)
  }

  /** Reference definition: all amounts summed. */
  function Amounts(es: seq<Entry>): real
    decreases |es|
  {
    if es == [] then 0.0 else es[0].amount + Amounts(es[1..])
  }

  lemma {:induction false} GroupSumSnoc(es: seq<Entry>, e: Entry, g: int)
    ensures GroupSum(es + [e], g) == GroupSum(es, g) + (if e.group == g then e.amount else 0.0)
    decreases |es|
  {
    if es == [] {
      assert es + [e] == [e];
    } else {
      assert (es + [e])[1..] == es[1..] + [e];
      GroupSumSnoc(es[1..], e, g);
    }
  }

  lemma {:induction false} AmountsSnoc(es: seq<Entry>, e: Entry)
    ensures Amounts(es + [e]) == Amounts(es) + e.amount
    decreases |es|
  {
    if es == [] {
      assert es + [e] == [e];
    } else {
      assert (es + [e])[1..] == es[1..] + [e];
      AmountsSnoc(es[1..], e);
    }
  }

  /** The totals have a key for exactly the groups some entry names. */
  lemma {:induction false} TotalsKeys(es: seq<Entry>)
    ensures Totals(es).Keys == set i | 0 <= i < |es| :: es[i].group
    decreases |es|
  {
    if es != [] {
      var init := es[..|es| - 1];
      TotalsKeys(init);
      var all := set i | 0 <= i < |es| :: es[i].group;
      var before := set i | 0 <= i < |init| :: init[i].group;
      assert all == before + {es[|es| - 1].group} by {
        forall x | x in all ensures x in before + {es[|es| - 1].group} {
          var i :| 0 <= i < |es| && es[i].group == x;
          if i < |init| {
            assert init[i].group == x;
          }
        }
      }
    }
  }

  /** Each group's total is the sum of the amounts of its entries; a group
      with no entry has no total. */
  lemma {:induction false} TotalsAreGroupSums(es: seq<Entry>, g: int)
    ensures g in Totals(es) ==> Totals(es)[g] == GroupSum(es, g)
    ensures g !in Totals(es) ==> GroupSum(es, g) == 0.0
    decreases |es|
  {
    if es != [] {
      var init := es[..|es| - 1];
      var e := es[|es| - 1];
      assert es == init + [e];
      TotalsAreGroupSums(init, g);
      GroupSumSnoc(init, e, g);
    }
  }

  /** Nothing is lost or counted twice: the totals add up to the sum of all
      amounts. */
  lemma {:induction false} TotalsConserve(es: seq<Entry>)
    ensures SumValues(Totals(es)) == Amounts(es)
    decreases |es|
  {
    if es != [] {
      var init := es[..|es| - 1];
      var e := es[|es| - 1];
      assert es == init + [e];
      TotalsConserve(init);
      SumValuesAdd(Totals(init), e.group, e.amount);
      AmountsSnoc(init, e);
    }
  }

  /** Reference definition: the brutto amounts of all rows, summed. */
  function BruttoTotal(lines: seq<Line>): real
    decreases |lines|
  {
    if lines == [] then 0.0
    else LineAmount(lines[0].quantity, lines[0].priceBrutto) + BruttoTotal(lines[1..])
  }

  lemma {:induction false} CalculationAmounts(lines: seq<Line>, code: string)
    requires CalculationEntries(lines, code).Ok?
    ensures Amounts(CalculationEntries(lines, code).value) == BruttoTotal(lines)
    decreases |lines|
  {
    if lines != [] {
      CalculationAmounts(lines[1..], code);
      assert CalculationEntries(lines, code).value[1..] == CalculationEntries(lines[1..], code).value;
    }
  }

  /** In `calculation` every row lands in exactly one group, group 0
      included: the group totals add up to the deal's brutto amount. */
  lemma CalculationConserves(lines: seq<Line>, code: string)
    requires CalculationEntries(lines, code).Ok?
    ensures SumValues(Totals(CalculationEntries(lines, code).value)) == BruttoTotal(lines)
  {
    TotalsConserve(CalculationEntries(lines, code).value);
    CalculationAmounts(lines, code);
  }

  /** A row with a blank group property is tagged 0 in `calculation` and
      left out of the volumes in `send_to_db`. */
  lemma BlankRowsExample(q: real, p: real, code: string)
    ensures CalculationEntries([Line(1, q, p, p, Blank)], code) == Ok([Entry(0, LineAmount(q, p))])
    ensures VolumeEntries([Line(1, q, p, p, Blank)], code) == Ok([])
  {
    var lines := [Line(1, q, p, p, Blank)];
    assert lines[1..] == [];
    assert CalculationEntries(lines[1..], code) == Ok([]);
    assert Tag(lines[0].property, code) == Ok(0);
    assert CalculationEntries(lines, code).Ok?;
    assert CalculationEntries(lines, code).value == [Entry(0, LineAmount(q, p))];
  }

  /** Two rows of group 7 and one of group 3, at whole amounts. */
  lemma TotalsExample()
    ensures Totals([Entry(7, 10.0), Entry(3, 2.5), Entry(7, 5.0)]) == map[7 := 15.0, 3 := 2.5]
  {
    assert [Entry(7, 10.0), Entry(3, 2.5), Entry(7, 5.0)][..2] == [Entry(7, 10.0), Entry(3, 2.5)];
    assert [Entry(7, 10.0), Entry(3, 2.5)][..1] == [Entry(7, 10.0)];
    assert [Entry(7, 10.0)][..0] == [];
  }
}
