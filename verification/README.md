# Discount resolution for Bitrix24 deals — a Dafny model

This project models the discount engine of `discounts_b24`, a Django
application that computes the discount of every product row of a Bitrix24
deal. The engine works in three steps:

- The deal's rows are summed into one total per nomenclature group (product
  group).
- Discount programs propose percents per group:
  - partner discounts by company type;
  - one-off discounts by invoice total (brackets);
  - accumulative discounts by the company's historical volume (three tiers);
  - per-product discounts.
- The proposals are merged, keeping the larger percent per group, and the
  merged percents are applied to the rows' prices.

The engine has two variants. The class-based evaluators are in
`discounts/activities/discount.py`. The older inline blocks are in the
`calculation` and `send_to_db` views of `discounts/activities/views.py`.
Both are modelled.

Modules, one per component:

| module | file | models |
|---|---|---|
| `Values` | values.dfy | record fields (`Value`), Python's `dict.get` / `dict[...]`, `int()`, `Decimal()`, truthiness, the exceptions as a `Result` |
| `Money` | money.dfy | `round(x, 2)` (half-even) and `sum(dict.values())` on exact decimals |
| `Merge` | merge.dfy | `Discount.compare_discounts` and the fold of several programs |
| `Filters` | filters.dfy | `check_input_date`, `check_company_type`, as in-place deletion loops |
| `Activity` | activity.dfy | `check_is_active_nomenclature_group` |
| `Updates` | updates.dfy | "assign in record order, the last one wins", shared by the evaluators |
| `Invoice` | invoice.dfy | `InvoiceDiscount.set_limits`, `calculate_discounts` |
| `Partner` | partner.dfy | `PartnerDiscount.calculate_discounts` |
| `Accumulative` | accumulative.dfy | `AccumulativeDiscount.calculate_discounts` |
| `Aggregation` | aggregation.dfy | group tagging and per-group totals of `calculation` and `send_to_db` |
| `Inline` | inline.dfy | the inline partner rule, the inline sum-invoice rule and the per-product map of `calculation` |
| `Pricing` | pricing.dfy | the price application loop of `calculation` |
| `Volumes` | volumes.dfy | the create-or-add of accumulated volumes in `send_to_db` |
| `Pipeline` | pipeline.dfy | a worked run: two programs merged, then one row priced |

How the code is modelled:

- A record (a smart-process element) is a `map<string, Value>`.
- Money is an exact `real`.
- A Python exception is an `Err` that aborts the whole pass.
- The CRM and database calls become parameters:
  - the reference-list lookup is a map from group id to the returned elements;
  - the stored accumulated volume is an `Option<real>`;
  - the volume table is a map.

The model follows the code at these points:

- The computed price is not rounded: `brutto * (100 - rate) / 100`
  (views.py:607, 628).
- A per-product percent replaces the group percent only when it is strictly
  larger (views.py:620).
- A row whose group has no percent gets rate 0 and keeps the `PRICE` it
  came with (views.py:612-613).
- The invoice program gives every active group the same bracket percent,
  from the sum of all active totals (discount.py:104-114). With totals A = 1200
  and B = 300, active, and brackets 0 -> 0, 1000 -> 8, both groups get 8.
  `Pipeline.TwoProgramsExample` proves this.
- `calculation` tags a row with a blank group property as group 0, and
  that row counts towards group 0's total (views.py:335-337).
- The number 0 is falsy, so `check_input_date` deletes an accumulative
  record whose first limit is the number 0 (discount.py:45-47). A tier one
  starting at 0 survives only when the limit is stored as the text "0".
- `int()` on a text ignores surrounding whitespace and accepts single
  underscores between digits: `int(" 12\n") == 12`, `int("1_000") == 1000`.
- The log lines of the inline partner and sum-invoice loops read
  `element['title']` unguarded (views.py:393-394, 410-412, 436-438). An
  element without a title aborts the view, and the model reads the title
  where the code does.

## Model

| member | source | states |
|---|---|---|
| `Merge.Merged` | discounts/activities/discount.py:28-38 | the merged map has the keys of both maps; each value is at least the old and the candidate percent and equals one of them (the key-wise maximum) |
| `Merge.CompareDiscounts` | discounts/activities/discount.py:28-38 | the in-place pass produces exactly the key-wise maximum: an early return on no candidates, insert when absent, skip a smaller percent, otherwise overwrite |
| `Merge.MergeEmpty` | discounts/activities/discount.py:30-31 | merging no candidates changes nothing |
| `Merge.MergeIdempotent` | discounts/activities/discount.py:28-38 | merging the same candidates twice gives the same map as merging them once |
| `Merge.MergeCommutes` | discounts/activities/discount.py:28-38 | the order in which two programs are merged does not matter |
| `Merge.MergeAssociates` | discounts/activities/discount.py:28-38 | merging two programs one after the other equals merging their merge |
| `Merge.MergeAllMonotone` | discounts/activities/discount.py:28-38 | across any number of merges no group loses its percent and no percent decreases |
| `Merge.MergeAllDominates` | discounts/activities/discount.py:28-38 | after all merges every group of every program has at least that program's percent |
| `Merge.MergeAllAttained` | discounts/activities/discount.py:28-38 | every final percent is the running map's own or one program's candidate |
| `Filters.Incomplete` | discounts/activities/discount.py:43-47 | the inner field loop reports a record exactly when some required field is absent or falsy |
| `Filters.CheckInputDate` | discounts/activities/discount.py:40-50 | the delete-in-place loop leaves exactly the records with every required field present and truthy, in their original order |
| `Filters.CheckCompanyType` | discounts/activities/discount.py:138-145 | the delete-in-place loop leaves exactly the records whose company-type field equals the deal company's type, in order |
| `Filters.FilterIsSubsequence` | discounts/activities/discount.py:40-50 | the kept records are the original ones with some left out, order preserved |
| `Filters.FilterCounts` | discounts/activities/discount.py:40-50 | each record is kept as many times as it occurs if it is valid and never otherwise (every record examined once) |
| `Filters.FilterAllValid` | discounts/activities/discount.py:40-50 | when every record is valid the sequence is unchanged |
| `Filters.BadBadGood` | discounts/activities/discount.py:40-50 | two invalid records in a row are both deleted and the valid one after them is kept |
| `Activity.CheckIsActive` | discounts/activities/discount.py:52-68 | the pass aborts exactly when some group's answer or activity property is empty; otherwise it keeps exactly the groups whose element was fetched, has the property and whose first value is the "yes" value, with their totals unchanged |
| `Updates.ApplyLastWins` | discounts/activities/discount.py:147-154 | after assignments in order, a key holds the percent of its last assignment and an unassigned key keeps its entry |
| `Updates.CollectLastFor` | discounts/activities/discount.py:147-154 | over a pass, the last assignment to a key is the one made by the last record that assigns it |
| `Invoice.RecordLimits` | discounts/activities/discount.py:96-98 | one bracket per record in record order; the pass fails exactly when some record's threshold or percent cannot be read |
| `Invoice.SortLimits` | discounts/activities/discount.py:99 | the sorted brackets are a permutation of the input, ascending by threshold |
| `Invoice.SetLimits` | discounts/activities/discount.py:94-99 | the table is the floor bracket (0, 0) plus one bracket per record, ascending by threshold; it fails exactly when a record's bracket cannot be read |
| `Invoice.BracketIsHighestReached` | discounts/activities/discount.py:106-112 | on a sorted table the loop picks the percent of the last bracket whose threshold does not exceed the total |
| `Invoice.BracketBelowAll` | discounts/activities/discount.py:106-112 | a total below every threshold falls through to the last bracket |
| `Invoice.InvoiceCandidates` | discounts/activities/discount.py:101-114 | no active group gives no candidates; otherwise exactly the active groups get the percent of the bracket of the summed active totals |
| `Invoice.InvoiceThresholdExample` | discounts/activities/discount.py:101-114 | with brackets 0/1000/5000 -> 0/5/10, totals 999.99, 1000 and 5000 give 0, 5 and 10 |
| `Partner.PartnerLastWins` | discounts/activities/discount.py:147-154 | a group gets a candidate exactly when some record names it and it has a total; the candidate is the percent of the last such record |
| `Partner.PartnerKeysInTotals` | discounts/activities/discount.py:147-154 | only groups that have a total get a partner candidate |
| `Accumulative.TierIsHighestMatching` | discounts/activities/discount.py:230-243 | the three tier checks with overwriting pick the highest-numbered tier whose interval holds the volume, or none |
| `Accumulative.TierOrdered` | discounts/activities/discount.py:206-243 | with ascending limits the tiers are [l1, l2), [l2, l3), [l3, infinity), and below l1 there is no tier |
| `Accumulative.TierExample` | discounts/activities/discount.py:206-243 | limits 0/1000/5000 with 5/10/15 percent: volume 6000 gives 15, 500 gives 5, 1000 gives 10 |
| `Accumulative.FirstLimitZeroDropped` | discounts/activities/discount.py:40-50 | a record whose first limit is the number 0 (integer or decimal) is deleted by the required-fields check |
| `Accumulative.FirstLimitTextZeroKept` | discounts/activities/discount.py:206-210 | with the first limit stored as the text "0" and the other fields truthy, the record is kept and tier one starts at 0 |
| `Accumulative.NoVolumeNoCandidates` | discounts/activities/discount.py:199-205 | without a stored volume for the company the program proposes nothing and reads no tier field |
| `Accumulative.AccumulativeLastWins` | discounts/activities/discount.py:194-243 | a group gets a candidate exactly when some record for that active group has a tier holding the stored volume; the candidate is the tier percent of the last such record |
| `Money.Round2` | discounts/activities/views.py:349-350 | the result is a whole number of cents within half a cent of the input |
| `Money.Round2HalfEven` | discounts/activities/views.py:349-350 | a value exactly halfway between two cents goes to the even cent (0.125 -> 0.12, 0.135 -> 0.14) |
| `Money.SumValuesRemove` | discounts/activities/discount.py:104 | the sum of a map's values can take any key first, so it does not depend on iteration order |
| `Values.GroupKey` | discounts/activities/discount.py:196-198 | the group id a field value denotes: an integer itself, a decimal exactly when it is whole (and then its value), a text or None never |
| `Values.GroupInDecimal` | discounts/activities/discount.py:196-198 | a decimal is found among the integer group ids exactly when it equals one of them |
| `Values.GroupIn` | discounts/activities/discount.py:196-198 | a field value names one of the dictionary's groups exactly when it is an integer (or a whole decimal) equal to a key; a text or None never does |
| `Values.ParseIntSpaces` | discounts/activities/views.py:338-340 | int() ignores whitespace around the number (" 12\n" gives 12) |
| `Values.ParseIntGrouped` | discounts/activities/views.py:338-340 | int() accepts single underscores between digits ("1_000" gives 1000) |
| `Values.ParseIntRejects` | discounts/activities/views.py:338-340 | int() rejects a leading, trailing or doubled underscore, a sign followed by a space, and blank text |
| `Values.ToInt` | discounts/activities/discount.py:212-227 | int() of an integer is itself, of a decimal its truncation toward zero (a whole decimal is kept), of a text its parse, failing exactly when the text is not an integer numeral; None raises TypeError |
| `Values.ToDecimal` | discounts/activities/discount.py:208-225 | Decimal() of an integer or a decimal is its exact value, of a text its integer parse, failing exactly when that fails; None raises TypeError |
| `Values.IntOfDecimal` | discounts/activities/discount.py:206-227 | int() and Decimal() accept the same fields, and int() is Decimal() truncated toward zero |
| `Values.VerbatimPercent` | discounts/activities/discount.py:153-154 | a percent stored verbatim takes part in the integer arithmetic exactly when it is an integer or a whole decimal, and then equals both int() and Decimal() of it |
| `Values.ParseShowRoundTrip` | discounts/activities/discount.py:212-213 | int() of the text of an integer gives that integer back |
| `Aggregation.LineAmount` | discounts/activities/views.py:349-351 | for amounts already in whole cents the row amount is quantity times price |
| `Aggregation.CalculationEntries` | discounts/activities/views.py:335-355 | every row contributes one entry, tagged 0 for a blank group property and int() of the property otherwise; the view aborts exactly when a tag cannot be computed |
| `Aggregation.VolumeEntries` | discounts/activities/views.py:145-159 | rows with a blank group property are skipped, every other row contributes its account-price amount to its group, in order; it aborts exactly when a tag cannot be computed |
| `Aggregation.TotalsKeys` | discounts/activities/views.py:346-355 | the totals have a key for exactly the groups some row names |
| `Aggregation.TotalsAreGroupSums` | discounts/activities/views.py:346-355 | each group's total is the sum of the amounts of its rows |
| `Aggregation.TotalsConserve` | discounts/activities/views.py:346-355 | the group totals add up to the sum of all row amounts |
| `Aggregation.CalculationConserves` | discounts/activities/views.py:335-355 | every row lands in exactly one group, group 0 included: the totals add up to the deal's brutto amount |
| `Aggregation.BlankRowsExample` | discounts/activities/views.py:145-149 | a blank row is tagged 0 by `calculation` and skipped by `send_to_db` |
| `Inline.InlinePartnerLastWins` | discounts/activities/views.py:390-408 | a group gets a percent exactly when some element of the deal company's type names it and it has a total; the percent is int() of the last such element's discount |
| `Inline.PartnerTarget` | discounts/activities/views.py:390-402 | an element fails exactly when it lacks the company type or the title, or is of the deal's type and lacks the group; it targets a group exactly when it is of the deal's type and its group is a key of the totals |
| `Inline.Offer` | discounts/activities/views.py:435-463 | an element needs a title and a group; it offers its verbatim percent for its group exactly when the group has a total that the threshold does not exceed, and offers nothing when the threshold exceeds it |
| `Inline.SumInvoice` | discounts/activities/views.py:435-463 | the loop fails exactly when some element's title, group, threshold or percent cannot be read |
| `Inline.UntitledElementAborts` | discounts/activities/views.py:390-438 | one element without a title aborts both the inline partner loop and the sum-invoice loop |
| `Inline.SumInvoiceIsMerge` | discounts/activities/views.py:435-463 | the loop is the keep-the-larger merge of each element's offer, in element order, into the map it starts from |
| `Inline.SumInvoiceNeverLowers` | discounts/activities/views.py:455-461 | no earlier percent is removed or lowered |
| `Inline.SumInvoiceReachesOffer` | discounts/activities/views.py:442-463 | an element whose group has a total at least its threshold leaves that group with at least its percent |
| `Inline.SumInvoiceAttained` | discounts/activities/views.py:435-463 | every resulting percent is the group's earlier one or some qualifying element's offer |
| `Inline.OfferThresholdExample` | discounts/activities/views.py:448-453 | a threshold above the group total offers nothing; a threshold equal to it qualifies |
| `Inline.ProductMapLastWins` | discounts/activities/views.py:578-584 | a product id is in the map exactly when some element lists it; its percent is that of the last element listing it |
| `Pricing.Discounted` | discounts/activities/views.py:607 | with a percent from 0 to 100 the price lies between 0 and the brutto price; rate 0 leaves it unchanged |
| `Pricing.PriceRowIsBest` | discounts/activities/views.py:604-629 | the rate is the larger of the group percent (0 without one) and the product percent; when a percent applies the price is the brutto price at that rate, otherwise the row keeps rate 0 and its own price |
| `Pricing.ProductPassNeverLowers` | discounts/activities/views.py:614-625 | the per-product pass never lowers the group rate, and with the program off or a product percent not larger the group pass alone decides |
| `Pricing.PriceRowBounds` | discounts/activities/views.py:604-629 | with percents from 0 to 100 the rate stays in range and a recomputed price lies between 0 and the brutto price |
| `Pricing.PriceRowExample` | discounts/activities/views.py:604-629 | 1000 at 8 percent costs 920; a product percent of 10 overrides it (900), one of 5 does not |
| `Pricing.ApplyDiscounts` | discounts/activities/views.py:592-632 | every row gets its best rate and the matching price, or rate 0 and its own price |
| `Volumes.Recorded` | discounts/activities/views.py:163-172 | a touched entry is created with its group total or increased by it; every other entry is left as it was |
| `Volumes.RecordVolumes` | discounts/activities/views.py:163-172 | the get-or-create loop leaves the store described by `Recorded` |
| `Volumes.RecordedOne` | discounts/activities/views.py:164-172 | recording one group is the create-or-add of that one entry |
| `Volumes.RecordedTwice` | discounts/activities/views.py:163-172 | recording two deals one after the other equals recording their combined totals once |
| `Volumes.RecordedCommutes` | discounts/activities/views.py:163-172 | the order in which two deals are recorded does not matter |
| `Volumes.RecordedExample` | discounts/activities/views.py:163-172 | a first recording of 1200 creates the entry; a second of 300 brings it to 1500 |
| `Pipeline.TwoProgramsExample` | discounts/activities/discount.py:101-154 | partner A = 5 and brackets 0 -> 0, 1000 -> 8 on totals A = 1200, B = 300 merge to A = 8, B = 8, and a 1000 row of A costs 920 |

## Left out

- Network and CRM calls are parameters, not code: the `ObjB24` family, `_check_error`, `response_for_bp` and the smart-process fetches. The model takes only successful answers as input. A failed fetch aborts the run: the sum-invoice and per-product element fetches (views.py:421-430, 564-573) answer the process and return after earlier blocks have run, and the per-element product fetch inside the per-product loop (views.py:579) is not caught at all.
- The Django ORM and persistence are not modelled: `Volume`, `SettingsPortal`, `get_or_create`, `save`. The volume table is a map, and the settings' field codes are parameters.
- Logging, the message tables, URL routing, admin registration, the settings form, the Excel export and the CSV volume loader are left out. They carry no discount logic. The one exception is the `element['title']` read of the inline loops' log lines, which can abort the view and is modelled.
- Pricing.ApplyDiscounts: deal rows are taken as already read (`Row`, `Line`). Every row is assumed to carry `ID`, `PRODUCT_ID`, `QUANTITY`, `PRICE_ACCOUNT`, `PRICE_BRUTTO` and the 11 keys the pricing loop deletes. The code reads these unguarded (views.py:131, 147, 150-151, 593-603), so a row missing one raises KeyError, and the model has no such error path.
- The inline accumulative block of `calculation` (views.py:490-554) is left out. It is superseded by the class version, which is modelled.
- `discount.py:3` imports `ListB24`, but the CRM module defines `ListsB24`. As written, the class module does not import. The model treats the lookup as if it resolved.
- `send_to_db` calls `get_or_create` with a `nomenclature_group_id` that the `Volume` model does not declare (discounts/volumes/models.py:5-32). As written, the call at views.py:164-166 raises Django's FieldError, so `send_to_db` records nothing. The model follows the view's evident intent instead and keys volumes by portal, company and group.
- Even with such a field, `unique_together = ['portal', 'company_id']` (discounts/volumes/models.py:32) allows only one row per company and portal, so a second group of the same company could not be stored.
- With one row per group, the `Volume.objects.get` at discount.py:200-203 would raise MultipleObjectsReturned, which nothing catches. `AccumulativeDiscount` is modelled as the code reads it: one volume per company and portal, the `stored` parameter.
- Values.ToInt: only ASCII digits and ASCII whitespace are recognised. Python's `int()` also accepts other Unicode decimal digits and Unicode whitespace.
- Values.Value: numeric fields are taken at their exact decimal value. A JSON number that reaches `decimal.Decimal()` as a Python float carries its binary expansion: `Decimal(999.99)` is slightly above 999.99. So the unrounded reads can differ from the model in the last binary digits:
  - views.py:448, the sum-invoice threshold. A float threshold of 999.99 does not qualify against a total of exactly 999.99, while `Inline.OfferThresholdExample` shows it qualifying for an exact value.
  - views.py:595, the brutto price.
  - discount.py:208-225, the accumulative tier limits, which are compared with the stored volume.
  - views.py:150-151 and 349-350, the rounded reads, at half-cent ties. `round(Decimal(2.675), 2)` is 2.67, because the float lies just below the tie, while `Money.Round2HalfEven` rounds the exact 2.675 to 2.68.
- Values.ToDecimal: a text is read only in integer form, so a text like "1000.50" is an error in the model while `Decimal()` accepts it. Decimal context precision (28 digits) is not modelled; money is exact.
- Volumes.Recorded: the volume column's rounding to 2 decimal places on save is not modelled.
- Values.VerbatimPercent: a percent stored verbatim must be a whole number, and the model aborts at once on a fractional decimal or a text. This differs from Python in three ways:
  - A non-integer JSON number, 8.0 included, reaches Python as a float. Python carries a float percent through the merges' comparisons (discount.py:97-98, 153-154; views.py:455-463, 583-584, 620).
  - A float that becomes a row's rate raises TypeError at views.py:607 or 628, because `Decimal * float` is refused. The model instead prices a whole float percent such as 8.0 like the integer 8, so it returns a price where the view aborts. A fractional float that loses every merge is harmless in Python but aborts in the model.
  - A text percent fails in Python only where it is later compared or subtracted.
- Invoice.SortLimits: stability is not proved. The insertion keeps equal thresholds in record order, as Python's sort does, but only the permutation and the ascending order are stated.
- Activity.CheckIsActive: the reference-list service is a map from group id to its answer. A failed request (a caught `RuntimeError`) is a missing key. A property value is the sequence of its dict's values (`ListElement`), so a value that is not a dict, which would raise AttributeError at discount.py:61-62, cannot be represented.
- Aggregation.CalculationEntries: quantity and prices are already read as decimals. A group property that lacks its `value` entry is not modelled.
- Inline.ProductMapLastWins: product ids are integers on both sides. The types the API returns for `productId` and `PRODUCT_ID` are not modelled.
- Which exception the source raises first is not modelled. The model only says that a pass aborts, and reports the first failure in its own evaluation order.
