/** The record validators of the evaluators: `Discount.check_input_date`
    drops the records missing a required field, and
    `PartnerDiscount.check_company_type` drops the records made for another
    company type. Both delete in place while walking an index. */
module Filters {

  import opened Values

  /** What a validator keeps a record for. */
  datatype Criterion =
    | Required(fields: seq<string>)
    | CompanyType(code: string, companyType: string)

  predicate Keeps(c: Criterion, r: Record) {
    match c
    case Required(fields) => forall j :: 0 <= j < |fields| ==> fields[j] in r && Truthy(r[fields[j]])
    case CompanyType(code, t) => Get(r, code) == Text(t)
  }

  /** Reference definition: the records the criterion keeps, in their
      original order. */
  function Filter(rs: seq<Record>, c: Criterion): seq<Record>
    decreases |rs|
  {
    if rs == [] then []
    else (if Keeps(c, rs[0]) then [rs[0]] else []) + Filter(rs[1..], c)
  }

  /** `a` is `b` with some elements left out, the rest in order. */
  predicate IsSubsequence(a: seq<Record>, b: seq<Record>)
    decreases |b|
  {
    if b == [] then a == []
    else (a != [] && a[0] == b[0] && IsSubsequence(a[1..], b[1..])) || IsSubsequence(a, b[1..])
  }

  lemma {:induction false} FilterAppend(a: seq<Record>, b: seq<Record>, c: Criterion)
    ensures Filter(a + b, c) == Filter(a, c) + Filter(b, c)
    decreases |a|
  {
    if a == [] {
      assert a + b == b;
    } else {
      var head := if Keeps(c, a[0]) then [a[0]] else [];
      assert (a + b)[0] == a[0];
      assert (a + b)[1..] == a[1..] + b;
      FilterAppend(a[1..], b, c);
      assert Filter(a + b, c) == head + Filter(a[1..] + b, c);
      assert Filter(a, c) == head + Filter(a[1..], c);
    }
  }

  /** Filtering keeps exactly the records the criterion accepts: each such
      record as often as it occurs, every other record never. */
  lemma {:induction false} FilterCounts(rs: seq<Record>, c: Criterion, x: Record)
    ensures multiset(Filter(rs, c))[x] == if Keeps(c, x) then multiset(rs)[x] else 0
    decreases |rs|
  {
    if rs != [] {
      FilterCounts(rs[1..], c, x);
      var head := if Keeps(c, rs[0]) then [rs[0]] else [];
      assert rs == [rs[0]] + rs[1..];
      assert multiset(rs) == multiset([rs[0]]) + multiset(rs[1..]);
      assert Filter(rs, c) == head + Filter(rs[1..], c);
      assert multiset(Filter(rs, c)) == multiset(head) + multiset(Filter(rs[1..], c));
    }
  }

  /** Filtering keeps the original order. */
  lemma {:induction false} FilterIsSubsequence(rs: seq<Record>, c: Criterion)
    ensures IsSubsequence(Filter(rs, c), rs)
    decreases |rs|
  {
    if rs != [] {
      FilterIsSubsequence(rs[1..], c);
      var f := Filter(rs, c);
      if Keeps(c, rs[0]) {
        assert f[0] == rs[0] && f[1..] == Filter(rs[1..], c);
      } else {
        assert f == Filter(rs[1..], c);
      }
    }
  }

  /** A sequence whose every record passes is left as it is. */
  lemma {:induction false} FilterAllValid(rs: seq<Record>, c: Criterion)
    requires forall i :: 0 <= i < |rs| ==> Keeps(c, rs[i])
    ensures Filter(rs, c) == rs
    decreases |rs|
  {
    if rs != [] {
      FilterAllValid(rs[1..], c);
    }
  }

  /** One more record examined: the filtered prefix grows by that record
      exactly when the criterion keeps it. */
  lemma FilterStep(records: seq<Record>, n: nat, c: Criterion)
    requires n < |records|
    ensures Filter(records[..n + 1], c) == Filter(records[..n], c) + (if Keeps(c, records[n]) then [records[n]] else [])
  {
    assert records[..n + 1] == records[..n] + [records[n]];
    FilterAppend(records[..n], [records[n]], c);
    assert [records[n]][1..] == [];
  }

  /** The in-place view of the loop: the kept prefix followed by the
      records still to examine, before and after the next one is kept or
      deleted. */
  lemma Splice(f: seq<Record>, records: seq<Record>, n: nat)
    requires n < |records|
    ensures (f + records[n..])[|f|] == records[n]
    ensures f + records[n..] == (f + [records[n]]) + records[n + 1..]
    ensures (f + records[n..])[..|f|] + (f + records[n..])[|f| + 1..] == f + records[n + 1..]
  {
    assert records[n..] == [records[n]] + records[n + 1..];
  }

  /** The inner `for ... else` of `check_input_date`: stops at the first
      required field that is absent or falsy. */
  method Incomplete(r: Record, inputDate: seq<string>) returns (missing: bool)
    ensures missing <==> !Keeps(Required(inputDate), r)
  {
    missing := false;
    var j := 0;
    while j < |inputDate| && !missing
      invariant 0 <= j <= |inputDate|
      invariant missing ==> !Keeps(Required(inputDate), r)
      invariant !missing ==> forall k :: 0 <= k < j ==> inputDate[k] in r && Truthy(r[inputDate[k]])
      decreases |inputDate| - j, !missing
    {
      if inputDate[j] !in r || !Truthy(Get(r, inputDate[j])) {
        missing := true;
      } else {
        j := j + 1;
      }
    }
  }

  /** `check_input_date`: walks the records with an index; a record missing
      a required field, or holding a falsy value there, is deleted and the
      index stays put, so the record that moved into its place is examined
      next. */
  method CheckInputDate(records: seq<Record>, inputDate: seq<string>) returns (kept: seq<Record>)
    ensures kept == Filter(records, Required(inputDate))
  {
    kept := records;
    var i := 0;
    ghost var n := 0;
    while i < |kept|
      invariant 0 <= n <= |records|
      invariant kept == Filter(records[..n], Required(inputDate)) + records[n..]
      invariant i == |Filter(records[..n], Required(inputDate))|
      decreases |kept| - i
    {
      var missing := Incomplete(kept[i], inputDate);
      Splice(Filter(records[..n], Required(inputDate)), records, n);
      FilterStep(records, n, Required(inputDate));
      if missing {
        kept := kept[..i] + kept[i + 1..];
      } else {
        i := i + 1;
      }
      n := n + 1;
    }
    assert records[..n] == records;
  }

  /** `check_company_type`: keeps the records whose company-type field
      equals the deal company's type, deleting the others in place. */
  method CheckCompanyType(records: seq<Record>, codeCompanyType: string, companyType: string)
    returns (kept: seq<Record>)
    ensures kept == Filter(records, CompanyType(codeCompanyType, companyType))
  {
    kept := records;
    var i := 0;
    ghost var n := 0;
    ghost var c := CompanyType(codeCompanyType, companyType);
    while i < |kept|
      invariant 0 <= n <= |records|
      invariant kept == Filter(records[..n], c) + records[n..]
      invariant i == |Filter(records[..n], c)|
      decreases |kept| - i
    {
      Splice(Filter(records[..n], c), records, n);
      FilterStep(records, n, c);
      if Text(companyType) == Get(kept[i], codeCompanyType) {
        i := i + 1;
      } else {
        kept := kept[..i] + kept[i + 1..];
      }
      n := n + 1;
    }
    assert records[..n] == records;
  }

  /** The iterate-and-delete pitfall is avoided: two bad records in a row
      are both removed and the good one after them is kept. */
  lemma BadBadGood(bad: Record, good: Record, code: string)
    requires code !in bad && code in good && good[code] == Int(7)
    ensures Filter([bad, bad, good], Required([code])) == [good]
  {
    var c := Required([code]);
    assert c.fields[0] == code;
    assert !Keeps(c, bad);
    assert Keeps(c, good);
    assert [good][1..] == [];
    assert Filter([good], c) == [good];
    assert [bad, good][1..] == [good];
    assert Filter([bad, good], c) == [good];
    assert [bad, bad, good][1..] == [bad, good];
  }
}
