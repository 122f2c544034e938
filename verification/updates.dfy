/** How the evaluators fill their candidate maps: each record yields a few
    (key, percent) assignments, and the assignments are carried out in
    record order, so on a repeated key the last one wins. */
module Updates {

  import opened Values

  /** `candidates[key] = percent`. */
  datatype Update = Update(key: int, percent: int)

  /** Carries out the assignments in order. */
  function Apply(m: map<int, int>, ups: seq<Update>): map<int, int>
    decreases |ups|
  {
    if ups == [] then m
    else Apply(m[ups[0].key := ups[0].percent], ups[1..])
  }

  /** Reference definition: the percent of the last assignment to `k`. */
  function LastFor(ups: seq<Update>, k: int): Option<int>
    decreases |ups|
  {
    if ups == [] then None
    else if ups[|ups| - 1].key == k then Some(ups[|ups| - 1].percent)
    else LastFor(ups[..|ups| - 1], k)
  }

  lemma {:induction false} ApplySnoc(m: map<int, int>, ups: seq<Update>, u: Update)
    ensures Apply(m, ups + [u]) == Apply(m, ups)[u.key := u.percent]
    decreases |ups|
  {
    if ups == [] {
      assert ups + [u] == [u];
    } else {
      assert (ups + [u])[1..] == ups[1..] + [u];
      ApplySnoc(m[ups[0].key := ups[0].percent], ups[1..], u);
    }
  }

  /** After the assignments a key holds the percent of its last assignment,
      and a key never assigned keeps its old entry (or stays absent). */
  lemma {:induction false} ApplyLastWins(m: map<int, int>, ups: seq<Update>, k: int)
    ensures k in Apply(m, ups) <==> k in m || LastFor(ups, k).Some?
    ensures LastFor(ups, k).Some? ==> Apply(m, ups)[k] == LastFor(ups, k).value
    ensures LastFor(ups, k).None? && k in m ==> Apply(m, ups)[k] == m[k]
    decreases |ups|
  {
    if ups != [] {
      var init := ups[..|ups| - 1];
      var u := ups[|ups| - 1];
      assert ups == init + [u];
      ApplySnoc(m, init, u);
      ApplyLastWins(m, init, k);
    }
  }

  /** Keys that are assigned are all drawn from the assignments. */
  lemma {:induction false} ApplyKeys(m: map<int, int>, ups: seq<Update>)
    ensures Apply(m, ups).Keys == m.Keys + set i | 0 <= i < |ups| :: ups[i].key
    decreases |ups|
  {
    if ups != [] {
      ApplyKeys(m[ups[0].key := ups[0].percent], ups[1..]);
      var rest := set i | 0 <= i < |ups[1..]| :: ups[1..][i].key;
      var all := set i | 0 <= i < |ups| :: ups[i].key;
      assert all == {ups[0].key} + rest by {
        forall x | x in all ensures x in {ups[0].key} + rest {
          var i :| 0 <= i < |ups| && ups[i].key == x;
          if i > 0 {
            assert ups[1..][i - 1].key == x;
          }
        }
      }
    }
  }

  lemma {:induction false} LastForAppend(a: seq<Update>, b: seq<Update>, k: int)
    ensures LastFor(a + b, k) == if LastFor(b, k).Some? then LastFor(b, k) else LastFor(a, k)
    decreases |b|
  {
    if b == [] {
      assert a + b == a;
    } else {
      assert (a + b)[..|a + b| - 1] == a + b[..|b| - 1];
      LastForAppend(a, b[..|b| - 1], k);
    }
  }

  /** Runs a per-record step over the records in order, concatenating their
      assignments; the first step that raises aborts the whole pass. */
  function Collect<R>(rs: seq<R>, step: R -> Result<seq<Update>>): (r: Result<seq<Update>>)
    ensures r.Err? <==> exists i :: 0 <= i < |rs| && step(rs[i]).Err?
    decreases |rs|
  {
    if rs == [] then Ok([])
    else
      var first :- step(rs[0]);
      var rest :- Collect(rs[1..], step);
      assert forall i :: 1 <= i < |rs| ==> rs[i] == rs[1..][i - 1];
      Ok(first + rest)
  }

  lemma {:induction false} CollectSnoc<R>(rs: seq<R>, x: R, step: R -> Result<seq<Update>>)
    requires Collect(rs + [x], step).Ok?
    ensures Collect(rs, step).Ok? && step(x).Ok?
    ensures Collect(rs + [x], step).value == Collect(rs, step).value + step(x).value
    decreases |rs|
  {
    assert (rs + [x])[|rs|] == x;
    if rs == [] {
      assert rs + [x] == [x];
    } else {
      assert (rs + [x])[1..] == rs[1..] + [x];
      assert forall i :: 0 <= i < |rs| ==> (rs + [x])[i] == rs[i];
      CollectSnoc(rs[1..], x, step);
    }
  }

  /** Over a whole pass, the last assignment to `k` is the last one made by
      the last record whose step assigns `k` at all. */
  lemma {:induction false} CollectLastFor<R>(rs: seq<R>, step: R -> Result<seq<Update>>, k: int)
    requires Collect(rs, step).Ok?
    ensures forall i :: 0 <= i < |rs| ==> step(rs[i]).Ok?
    ensures LastFor(Collect(rs, step).value, k).None? <==>
              forall i :: 0 <= i < |rs| ==> LastFor(step(rs[i]).value, k).None?
    ensures LastFor(Collect(rs, step).value, k).Some? ==>
              exists i :: 0 <= i < |rs| && LastFor(Collect(rs, step).value, k) == LastFor(step(rs[i]).value, k)
                          && forall j :: i < j < |rs| ==> LastFor(step(rs[j]).value, k).None?
    decreases |rs|
  {
    if rs != [] {
      var init := rs[..|rs| - 1];
      var x := rs[|rs| - 1];
      assert rs == init + [x];
      CollectSnoc(init, x, step);
      CollectLastFor(init, step, k);
      LastForAppend(Collect(init, step).value, step(x).value, k);
      assert forall i :: 0 <= i < |init| ==> rs[i] == init[i];
    }
  }
}
