/** PassengerConnection: activated, restricted and deleted passengers, keyed by CPF. */
module PassengerConnections {
  import opened Wrappers
  import opened Models
  import opened Keyed

  class PassengerConnection {
    /** "ActivatedPassenger" */
    var activated: seq<Passenger>
    /** "RestrictedPassenger" */
    var restricted: seq<Passenger>
    /** "DeletedPassenger" */
    var deleted: seq<Passenger>

    constructor ()
      ensures activated == [] && restricted == [] && deleted == []
    {
      activated, restricted, deleted := [], [], [];
    }

    /**
     * Insert: the passenger is appended, then the first active record with its
     * CPF is returned, which is an older duplicate when one exists.
     */
    method Insert(passenger: Passenger) returns (pass: Passenger)
      modifies this
      ensures activated == old(activated) + [passenger]
      ensures restricted == old(restricted) && deleted == old(deleted)
      ensures Find(activated, CpfOf, passenger.cpf) == Some(pass)
      ensures pass.cpf == passenger.cpf
      ensures Find(old(activated), CpfOf, passenger.cpf).None? ==> pass == passenger
    {
      activated := activated + [passenger];
      FindAfterAppend(old(activated), CpfOf, passenger);
      if Find(old(activated), CpfOf, passenger.cpf).None? {
        IndexOfPastMisses(old(activated), CpfOf, passenger.cpf, passenger);
      }
      pass := Find(activated, CpfOf, passenger.cpf).value;
    }

    /** FindPassenger: the first active record with that CPF. */
    function FindPassenger(cpf: string): (r: Option<Passenger>)
      reads this
      ensures r.Some? ==> r.value in activated && r.value.cpf == cpf
      ensures r.Some? ==> IsFirstMatch(activated, CpfOf, cpf, r.value)
      ensures r.None? <==> forall p :: p in activated ==> p.cpf != cpf
    {
      Find(activated, CpfOf, cpf)
    }

    /** FindPassengerRestrict: the first restricted record with that CPF. */
    function FindPassengerRestrict(cpf: string): (r: Option<Passenger>)
      reads this
      ensures r.Some? ==> r.value in restricted && r.value.cpf == cpf
      ensures r.Some? ==> IsFirstMatch(restricted, CpfOf, cpf, r.value)
      ensures r.None? <==> forall p :: p in restricted ==> p.cpf != cpf
    {
      Find(restricted, CpfOf, cpf)
    }

    /** FindPassengerDeleted: the first deleted record with that CPF. */
    function FindPassengerDeleted(cpf: string): (r: Option<Passenger>)
      reads this
      ensures r.Some? ==> r.value in deleted && r.value.cpf == cpf
      ensures r.Some? ==> IsFirstMatch(deleted, CpfOf, cpf, r.value)
      ensures r.None? <==> forall p :: p in deleted ==> p.cpf != cpf
    {
      Find(deleted, CpfOf, cpf)
    }

    /** Update: ReplaceOne on the first active record with that CPF; always acknowledged. */
    method Update(cpf: string, passenger: Passenger) returns (ok: bool)
      modifies this
      ensures activated == ReplaceFirst(old(activated), CpfOf, cpf, passenger)
      ensures restricted == old(restricted) && deleted == old(deleted)
      ensures ok
    {
      var i := IndexOf(activated, CpfOf, cpf);
      if i.Some? {
        activated := activated[i.value := passenger];
      }
      ok := true;
    }

    /**
     * Delete: the record is taken from the activated collection when it is there,
     * otherwise from the restricted one, and moved to deleted. In neither gives
     * false; an exception gives false.
     */
    method Delete(cpf: string, fault: Fault) returns (ok: bool)
      modifies this
      ensures IndexOf(old(activated), CpfOf, cpf).Some? ==>
                Moved(activated, deleted, ok) == Transfer(old(activated), old(deleted), CpfOf, cpf, fault)
                && restricted == old(restricted)
      ensures IndexOf(old(activated), CpfOf, cpf).None? ==>
                Moved(restricted, deleted, ok) == Transfer(old(restricted), old(deleted), CpfOf, cpf, fault)
                && activated == old(activated)
    {
      if fault == TakeFails { return false; }
      var trash := IndexOf(activated, CpfOf, cpf);
      if trash.None? {
        var trashRestricted := IndexOf(restricted, CpfOf, cpf);
        if trashRestricted.None? { return false; }
        var p := restricted[trashRestricted.value];
        restricted := RemoveAt(restricted, trashRestricted.value);
        if fault == InsertFails { return false; }
        deleted := deleted + [p];
        return true;
      } else {
        var p := activated[trash.value];
        activated := RemoveAt(activated, trash.value);
        if fault == InsertFails { return false; }
        deleted := deleted + [p];
        return true;
      }
    }

    /**
     * Restrict: the record moves from activated to restricted, then a closing
     * lookup in restricted decides the answer. When that lookup runs it always
     * finds the record just inserted; lookupFails says whether it throws instead,
     * which the catch turns into false after the move has happened.
     */
    method Restrict(cpf: string, fault: Fault, lookupFails: bool) returns (ok: bool)
      modifies this
      ensures var m := Transfer(old(activated), old(restricted), CpfOf, cpf, fault);
        activated == m.source && restricted == m.target && ok == (m.ok && !lookupFails)
      ensures deleted == old(deleted)
    {
      if fault == TakeFails { return false; }
      var passenger := IndexOf(activated, CpfOf, cpf);
      if passenger.None? { return false; }
      var p := activated[passenger.value];
      activated := RemoveAt(activated, passenger.value);
      if fault == InsertFails { return false; }
      restricted := restricted + [p];
      if lookupFails { return false; }
      FindAfterAppend(old(restricted), CpfOf, p);
      ok := Find(restricted, CpfOf, cpf).Some?;
    }

    /** Unrestrict: the record moves from restricted back to activated. */
    method Unrestrict(cpf: string, fault: Fault, lookupFails: bool) returns (ok: bool)
      modifies this
      ensures var m := Transfer(old(restricted), old(activated), CpfOf, cpf, fault);
        restricted == m.source && activated == m.target && ok == (m.ok && !lookupFails)
      ensures deleted == old(deleted)
    {
      if fault == TakeFails { return false; }
      var restrict := IndexOf(restricted, CpfOf, cpf);
      if restrict.None? { return false; }
      var p := restricted[restrict.value];
      restricted := RemoveAt(restricted, restrict.value);
      if fault == InsertFails { return false; }
      activated := activated + [p];
      if lookupFails { return false; }
      FindAfterAppend(old(activated), CpfOf, p);
      ok := Find(activated, CpfOf, cpf).Some?;
    }

    /** UndeletPassenger: the record moves from deleted back to activated. */
    method UndeletPassenger(cpf: string, fault: Fault, lookupFails: bool) returns (ok: bool)
      modifies this
      ensures var m := Transfer(old(deleted), old(activated), CpfOf, cpf, fault);
        deleted == m.source && activated == m.target && ok == (m.ok && !lookupFails)
      ensures restricted == old(restricted)
    {
      if fault == TakeFails { return false; }
      var delete := IndexOf(deleted, CpfOf, cpf);
      if delete.None? { return false; }
      var p := deleted[delete.value];
      deleted := RemoveAt(deleted, delete.value);
      if fault == InsertFails { return false; }
      activated := activated + [p];
      if lookupFails { return false; }
      FindAfterAppend(old(activated), CpfOf, p);
      ok := Find(activated, CpfOf, cpf).Some?;
    }
  }

  /**
   * A successful move (Delete, Restrict, Unrestrict or UndeletPassenger) keeps
   * the total: one record leaves one collection and the same record enters another.
   */
  lemma MoveKeepsTotal(source: seq<Passenger>, target: seq<Passenger>, cpf: string, fault: Fault)
    requires Transfer(source, target, CpfOf, cpf, fault).ok
    ensures var m := Transfer(source, target, CpfOf, cpf, fault);
      |m.source| + |m.target| == |source| + |target|
      && multiset(m.source) + multiset(m.target) == multiset(source) + multiset(target)
      && exists p :: p in source && p.cpf == cpf && m.target == target + [p]
  {
    TransferMovesFirstMatch(source, target, CpfOf, cpf);
  }
}
