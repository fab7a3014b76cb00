/** AirCraftConnection: activated and deleted aircraft, keyed by RAB. */
module AirCraftConnections {
  import opened Wrappers
  import opened Dates
  import opened Models
  import opened Keyed

  class AirCraftConnection {
    /** "ActivatedAirCrafts" */
    var activated: seq<AirCraft>
    /** "DeletedAirCrafts" */
    var deleted: seq<AirCraft>

    constructor ()
      ensures activated == [] && deleted == []
    {
      activated, deleted := [], [];
    }

    /** Insert: the aircraft is appended, then the first active record with its RAB is returned. */
    method Insert(airCraft: AirCraft) returns (res: AirCraft)
      modifies this
      ensures activated == old(activated) + [airCraft] && deleted == old(deleted)
      ensures Find(activated, RabOf, airCraft.rab) == Some(res)
      ensures res.rab == airCraft.rab
      ensures Find(old(activated), RabOf, airCraft.rab).None? ==> res == airCraft
    {
      activated := activated + [airCraft];
      FindAfterAppend(old(activated), RabOf, airCraft);
      if Find(old(activated), RabOf, airCraft.rab).None? {
        IndexOfPastMisses(old(activated), RabOf, airCraft.rab, airCraft);
      }
      res := Find(activated, RabOf, airCraft.rab).value;
    }

    /** FindByRab: the first active aircraft with that RAB. */
    function FindByRab(rab: string): (r: Option<AirCraft>)
      reads this
      ensures r.Some? ==> r.value in activated && r.value.rab == rab
      ensures r.Some? ==> IsFirstMatch(activated, RabOf, rab, r.value)
      ensures r.None? <==> forall a :: a in activated ==> a.rab != rab
    {
      Find(activated, RabOf, rab)
    }

    /** FindByRabDeleted: the first deleted aircraft with that RAB. */
    function FindByRabDeleted(rab: string): (r: Option<AirCraft>)
      reads this
      ensures r.Some? ==> r.value in deleted && r.value.rab == rab
      ensures r.Some? ==> IsFirstMatch(deleted, RabOf, rab, r.value)
      ensures r.None? <==> forall a :: a in deleted ==> a.rab != rab
    {
      Find(deleted, RabOf, rab)
    }

    /** Delete: the aircraft moves from activated to deleted; absent gives false with nothing changed. */
    method Delete(rab: string) returns (ok: bool)
      modifies this
      ensures Moved(activated, deleted, ok) == Transfer(old(activated), old(deleted), RabOf, rab, NoFault)
    {
      var trash := IndexOf(activated, RabOf, rab);
      if trash.None? { return false; }
      var a := activated[trash.value];
      activated := RemoveAt(activated, trash.value);
      deleted := deleted + [a];
      ok := true;
    }

    /** UndeleteAirCraft: the aircraft moves from deleted back to activated. */
    method UndeleteAirCraft(rab: string) returns (ok: bool)
      modifies this
      ensures Moved(deleted, activated, ok) == Transfer(old(deleted), old(activated), RabOf, rab, NoFault)
    {
      var trash := IndexOf(deleted, RabOf, rab);
      if trash.None? { return false; }
      var a := deleted[trash.value];
      deleted := RemoveAt(deleted, trash.value);
      activated := activated + [a];
      ok := true;
    }

    /** Update: ReplaceOne of the first active aircraft with that RAB; always acknowledged. */
    method Update(rab: string, airCraft: AirCraft) returns (ok: bool)
      modifies this
      ensures activated == ReplaceFirst(old(activated), RabOf, rab, airCraft)
      ensures deleted == old(deleted)
      ensures ok
    {
      var i := IndexOf(activated, RabOf, rab);
      if i.Some? {
        activated := activated[i.value := airCraft];
      }
      ok := true;
    }

    /**
     * PatchDate: None when no active aircraft has that RAB; otherwise its
     * last-flight date is set and the record is returned with that date.
     */
    method PatchDate(rab: string, date: Date) returns (r: Option<AirCraft>)
      modifies this
      ensures var i := IndexOf(old(activated), RabOf, rab);
        r.None? <==> i.None?
      ensures var i := IndexOf(old(activated), RabOf, rab);
        i.Some? ==> r == Some(old(activated)[i.value].(dateLastFlight := Some(date)))
                    && activated == old(activated)[i.value := r.value]
      ensures r.None? ==> activated == old(activated)
      ensures deleted == old(deleted)
    {
      var i := IndexOf(activated, RabOf, rab);
      if i.None? { return None; }
      var airCraft := activated[i.value].(dateLastFlight := Some(date));
      activated := activated[i.value := airCraft];
      r := Some(airCraft);
    }
  }

  /**
   * Delete followed by UndeleteAirCraft restores the active aircraft (as a
   * multiset; the restored one is now last) and the deleted collection, when no
   * aircraft with that RAB had been deleted before.
   */
  lemma DeleteThenUndeleteRestores(activated: seq<AirCraft>, deleted: seq<AirCraft>, rab: string)
    requires exists i :: 0 <= i < |activated| && activated[i].rab == rab
    requires forall j :: 0 <= j < |deleted| ==> deleted[j].rab != rab
    ensures var del := Transfer(activated, deleted, RabOf, rab, NoFault);
      var undel := Transfer(del.target, del.source, RabOf, rab, NoFault);
      del.ok && undel.ok && undel.source == deleted && multiset(undel.target) == multiset(activated)
  {
    TransferRoundTrip(activated, deleted, RabOf, rab);
  }
}
