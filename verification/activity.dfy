/** The activity-status restriction
    (`Discount.check_is_active_nomenclature_group`): a nomenclature group
    takes part in a program only when its element of the reference list of
    groups is flagged active for that program. */
module Activity {

  import opened Values

  /** One element of the reference list: property code to the values of
      that property, in the order the list service returns them. */
  type ListElement = map<string, seq<Value>>

  /** The answers of the reference-list service, per group id: the elements
      returned for it. A group absent here is one whose request failed. */
  type ListLookup = map<int, seq<ListElement>>

  /** How one group fares in the restriction. */
  datatype Status =
    | Active    // kept
    | Skipped   // left out, the pass goes on
    | Raises    // an IndexError escapes and aborts the pass

  /** A failed request, or an element without the activity property, skips
      the group; the first value of the property decides against the "yes"
      sentinel. An empty answer or an empty property has no first value. */
  function StatusOf(lookup: ListLookup, g: int, isActiveCode: string, isActiveYes: string): Status {
    if g !in lookup then Skipped
    else if lookup[g] == [] then Raises
    else
      var elem := lookup[g][0];
      if isActiveCode !in elem then Skipped
      else if elem[isActiveCode] == [] then Raises
      else if elem[isActiveCode][0] == Text(isActiveYes) then Active
      else Skipped
  }

  /** `check_is_active_nomenclature_group`: walks the groups, each with its
      own lookup, and collects the active ones with their totals. */
  method CheckIsActive(groups: map<int, real>, lookup: ListLookup, isActiveCode: string, isActiveYes: string)
    returns (r: Result<map<int, real>>)
    ensures r.Err? <==> exists g :: g in groups && StatusOf(lookup, g, isActiveCode, isActiveYes) == Raises
    ensures r.Ok? ==> forall g :: g in r.value <==> g in groups && StatusOf(lookup, g, isActiveCode, isActiveYes) == Active
    ensures r.Ok? ==> forall g :: g in r.value ==> r.value[g] == groups[g]
  {
    var active: map<int, real> := map[];
    var pending := groups.Keys;
    while pending != {}
      invariant pending <= groups.Keys
      invariant forall g :: g in groups && g !in pending ==> StatusOf(lookup, g, isActiveCode, isActiveYes) != Raises
      invariant forall g :: g in active <==> g in groups && g !in pending && StatusOf(lookup, g, isActiveCode, isActiveYes) == Active
      invariant forall g :: g in active ==> active[g] == groups[g]
      decreases pending
    {
      NonEmptyHasElement(pending);
      var g :| g in pending;
      if g in lookup {
        if lookup[g] == [] {
          return Err(IndexError);
        }
        var elem := lookup[g][0];
        if isActiveCode in elem {
          if elem[isActiveCode] == [] {
            return Err(IndexError);
          }
          if elem[isActiveCode][0] == Text(isActiveYes) {
            active := active[g := groups[g]];
          }
        }
      }
      pending := pending - {g};
    }
    return Ok(active);
  }
}
