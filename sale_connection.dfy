/** SaleConnection: the active and soft-deleted sale collections. */
module SaleConnections {
  import opened Wrappers
  import opened Dates
  import opened Models
  import opened Keyed

  /** The two flag writes of Update, both taken from the snapshot the caller passes. */
  function Toggled(stored: Sale, snapshot: Sale): (r: Sale)
    ensures r.flight == stored.flight && r.passengers == stored.passengers
    ensures r.reserved == !snapshot.reserved && r.sold == !snapshot.sold
  {
    stored.(reserved := !snapshot.reserved).(sold := !snapshot.sold)
  }

  /** A sale toggled against itself keeps exactly one flag when it had exactly one (the flags swap), and toggling twice restores it. */
  lemma ToggleSwapsFlags(s: Sale)
    ensures s.reserved != s.sold ==> Toggled(s, s).reserved != Toggled(s, s).sold
    ensures Toggled(s, s).reserved == !s.reserved && Toggled(s, s).sold == !s.sold
    ensures Toggled(Toggled(s, s), Toggled(s, s)) == s
  {
  }

  class SaleConnection {
    /** "ActivateSale" */
    var active: seq<Sale>
    /** "DeletedSale" */
    var deleted: seq<Sale>

    constructor ()
      ensures active == [] && deleted == []
    {
      active, deleted := [], [];
    }

    /** InsertAsync: the sale is appended to the active collection and returned as given. */
    method InsertAsync(sale: Sale) returns (r: Sale)
      modifies this
      ensures active == old(active) + [sale] && deleted == old(deleted)
      ensures r == sale
    {
      active := active + [sale];
      r := sale;
    }

    /**
     * FindSaleAsync: the first active sale on that flight (departure, destination,
     * aircraft) whose first passenger is cpf. Soft-deleted sales are never found.
     */
    function FindSaleAsync(cpf: string, iata: string, rab: string, departure: Date): (r: Option<Sale>)
      reads this
      ensures r.Some? ==>
                r.value in active && |r.value.passengers| > 0
                && r.value.passengers[0] == cpf && r.value.flight.destiny.iata == iata
                && r.value.flight.plane.rab == rab && r.value.flight.departure == departure
      ensures r.Some? ==> IsFirstMatch(active, SaleKeyOf, Some(SaleKey(cpf, iata, rab, departure)), r.value)
      ensures r.None? <==> forall s :: s in active ==> SaleKeyOf(s) != Some(SaleKey(cpf, iata, rab, departure))
    {
      Find(active, SaleKeyOf, Some(SaleKey(cpf, iata, rab, departure)))
    }

    /**
     * Update: on the first active match, Reserved := !sale.Reserved and then
     * Sold := !sale.Sold. Both updates are acknowledged, matched or not, so the
     * result is always true.
     */
    method Update(cpf: string, iata: string, rab: string, departure: Date, sale: Sale) returns (ok: bool)
      modifies this
      ensures var i := IndexOf(old(active), SaleKeyOf, Some(SaleKey(cpf, iata, rab, departure)));
        active == (if i.None? then old(active) else old(active)[i.value := Toggled(old(active)[i.value], sale)])
      ensures deleted == old(deleted)
      ensures ok
    {
      var k := Some(SaleKey(cpf, iata, rab, departure));
      var i := IndexOf(active, SaleKeyOf, k);
      if i.Some? {
        var updated := active[i.value].(reserved := !sale.reserved);
        IndexOfSameKeyUpdate(active, SaleKeyOf, k, i.value, updated);
        active := active[i.value := updated];
      }
      var j := IndexOf(active, SaleKeyOf, k);
      if j.Some? {
        active := active[j.value := active[j.value].(sold := !sale.sold)];
      }
      ok := true;
    }

    /**
     * DeleteAsync: the first active match is taken out and appended to the
     * deleted collection (true); no match gives false with nothing changed, and
     * a database exception gives false.
     */
    method DeleteAsync(cpf: string, iata: string, rab: string, departure: Date, fault: Fault) returns (status: bool)
      modifies this
      ensures Moved(active, deleted, status)
        == Transfer(old(active), old(deleted), SaleKeyOf, Some(SaleKey(cpf, iata, rab, departure)), fault)
    {
      if fault == TakeFails { return false; }
      var k := Some(SaleKey(cpf, iata, rab, departure));
      var trash := IndexOf(active, SaleKeyOf, k);
      if trash.None? { return false; }
      var sale := active[trash.value];
      active := RemoveAt(active, trash.value);
      if fault == InsertFails { return false; }
      deleted := deleted + [sale];
      status := true;
    }
  }
}
