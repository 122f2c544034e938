/** The volume upsert of the `send_to_db` view: each group total of a
    shipped deal is added to the company's accumulated volume for that
    group, creating the entry when there is none. */
module Volumes {

  import opened Values

  /** The fields the view looks an entry up by. */
  datatype VolumeKey = VolumeKey(portal: string, company: int, group: int)

  /** The stored accumulated volumes. */
  type Store = map<VolumeKey, real>

  /** Whether an entry belongs to the given portal and company and one of
      the groups being recorded. */
  predicate Touched(k: VolumeKey, portal: string, company: int, totals: map<int, real>) {
    k.portal == portal && k.company == company && k.group in totals
  }

  /** The store after recording the group totals of one deal: a touched
      entry is created with its total or increased by it; every other entry
      is left as it was. */
  function Recorded(store: Store, portal: string, company: int, totals: map<int, real>): (r: Store)
    ensures forall k :: k in r <==> k in store || Touched(k, portal, company, totals)
    ensures forall k :: k in store && !Touched(k, portal, company, totals) ==> r[k] == store[k]
    ensures forall k :: k !in store && Touched(k, portal, company, totals) ==> r[k] == totals[k.group]
    ensures forall k :: k in store && Touched(k, portal, company, totals) ==> r[k] == store[k] + totals[k.group]
  {
    var added := set g | g in totals :: VolumeKey(portal, company, g);
    map k | k in store.Keys + added ::
      if Touched(k, portal, company, totals)
      then (if k in store then store[k] else 0.0) + totals[k.group]
      else store[k]
  }

  /** The group totals of two deals, added group by group. */
  function Combined(a: map<int, real>, b: map<int, real>): (r: map<int, real>)
    ensures r.Keys == a.Keys + b.Keys
  {
    map g | g in a.Keys + b.Keys ::
      (if g in a then a[g] else 0.0) + (if g in b then b[g] else 0.0)
  }

  /** The volume an entry holds, 0 when there is none. */
  function Stored(store: Store, k: VolumeKey): real {
    if k in store then store[k] else 0.0
  }

  /** What one recording adds to an entry. */
  function Added(k: VolumeKey, portal: string, company: int, totals: map<int, real>): real {
    if Touched(k, portal, company, totals) then totals[k.group] else 0.0
  }

  /** Entry by entry, recording adds the group's total to what was stored. */
  lemma RecordedAt(store: Store, portal: string, company: int, totals: map<int, real>, k: VolumeKey)
    ensures Stored(Recorded(store, portal, company, totals), k) == Stored(store, k) + Added(k, portal, company, totals)
  {
  }

  /** Recording two deals of one company one after the other stores the
      same volumes as recording their combined totals once. */
  lemma RecordedTwice(store: Store, portal: string, company: int, a: map<int, real>, b: map<int, real>)
    ensures Recorded(Recorded(store, portal, company, a), portal, company, b)
            == Recorded(store, portal, company, Combined(a, b))
  {
    var lhs := Recorded(Recorded(store, portal, company, a), portal, company, b);
    var rhs := Recorded(store, portal, company, Combined(a, b));
    forall k
      ensures (k in lhs <==> k in rhs) && Stored(lhs, k) == Stored(rhs, k)
    {
      RecordedTwiceAt(store, portal, company, a, b, k);
      RecordedAt(store, portal, company, Combined(a, b), k);
      assert Touched(k, portal, company, Combined(a, b))
             <==> Touched(k, portal, company, a) || Touched(k, portal, company, b);
      assert Added(k, portal, company, Combined(a, b))
             == Added(k, portal, company, a) + Added(k, portal, company, b);
    }
    SameStores(lhs, rhs);
  }

  /** Entry by entry, two recordings add both deals' totals. */
  lemma RecordedTwiceAt(store: Store, portal: string, company: int, a: map<int, real>, b: map<int, real>, k: VolumeKey)
    ensures var r := Recorded(Recorded(store, portal, company, a), portal, company, b);
      && (k in r <==> k in store || Touched(k, portal, company, a) || Touched(k, portal, company, b))
      && Stored(r, k) == Stored(store, k) + Added(k, portal, company, a) + Added(k, portal, company, b)
  {
    var mid := Recorded(store, portal, company, a);
    RecordedAt(mid, portal, company, b, k);
    RecordedAt(store, portal, company, a, k);
  }

  /** Two stores with the same entries holding the same volumes are equal. */
  lemma SameStores(x: Store, y: Store)
    requires forall k :: (k in x <==> k in y) && Stored(x, k) == Stored(y, k)
    ensures x == y
  {
    assert x.Keys == y.Keys;
    forall k | k in x
      ensures x[k] == y[k]
    {
      assert Stored(x, k) == Stored(y, k);
    }
  }

  /** The order in which two deals are recorded does not matter. */
  lemma RecordedCommutes(store: Store, portal: string, company: int, a: map<int, real>, b: map<int, real>)
    ensures Recorded(Recorded(store, portal, company, a), portal, company, b)
            == Recorded(Recorded(store, portal, company, b), portal, company, a)
  {
    var ab := Recorded(Recorded(store, portal, company, a), portal, company, b);
    var ba := Recorded(Recorded(store, portal, company, b), portal, company, a);
    forall k
      ensures (k in ab <==> k in ba) && Stored(ab, k) == Stored(ba, k)
    {
      RecordedTwiceAt(store, portal, company, a, b, k);
      RecordedTwiceAt(store, portal, company, b, a, k);
    }
    SameStores(ab, ba);
  }

  /** Recording one group is the create-or-add of that one entry. */
  lemma RecordedOne(store: Store, portal: string, company: int, g: int, amount: real)
    ensures var key := VolumeKey(portal, company, g);
      Recorded(store, portal, company, map[g := amount])
      == store[key := (if key in store then store[key] else 0.0) + amount]
  {
    var key := VolumeKey(portal, company, g);
    var lhs := Recorded(store, portal, company, map[g := amount]);
    var rhs := store[key := (if key in store then store[key] else 0.0) + amount];
    assert lhs.Keys == rhs.Keys;
    assert forall k :: k in lhs ==> lhs[k] == rhs[k];
  }

  /** The loop of `send_to_db` over the group totals: `get_or_create` with
      the total as default, otherwise an increase and a save. */
  method RecordVolumes(store: Store, portal: string, company: int, totals: map<int, real>) returns (r: Store)
    ensures r == Recorded(store, portal, company, totals)
  {
    r := store;
    var pending := totals.Keys;
    while pending != {}
      invariant pending <= totals.Keys
      invariant forall k :: k in r <==> k in store || (Touched(k, portal, company, totals) && k.group !in pending)
      invariant forall k :: k in r ==>
                  r[k] == if Touched(k, portal, company, totals) && k.group !in pending
                          then (if k in store then store[k] else 0.0) + totals[k.group]
                          else store[k]
      decreases pending
    {
      NonEmptyHasElement(pending);
      var g :| g in pending;
      var key := VolumeKey(portal, company, g);
      if key in r {
        r := r[key := r[key] + totals[g]];
      } else {
        r := r[key := totals[g]];
      }
      pending := pending - {g};
    }
    var want := Recorded(store, portal, company, totals);
    assert r.Keys == want.Keys;
    assert forall k :: k in r ==> r[k] == want[k];
  }

  /** A first recording creates the entry; a second one adds to it. */
  lemma RecordedExample(portal: string)
    ensures Recorded(map[], portal, 5, map[7 := 1200.0]) == map[VolumeKey(portal, 5, 7) := 1200.0]
    ensures Recorded(map[VolumeKey(portal, 5, 7) := 1200.0], portal, 5, map[7 := 300.0])
            == map[VolumeKey(portal, 5, 7) := 1500.0]
  {
    RecordedOne(map[], portal, 5, 7, 1200.0);
    RecordedOne(map[VolumeKey(portal, 5, 7) := 1200.0], portal, 5, 7, 300.0);
  }
}
