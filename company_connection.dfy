/** CompanyConnection: activated, restricted and deleted companies, keyed by CNPJ. */
module CompanyConnections {
  import opened Wrappers
  import opened Models
  import opened Keyed

  class CompanyConnection {
    /** "ActivatedCompanies" */
    var activated: seq<Company>
    /** "RestrictedCompanies" */
    var restricted: seq<Company>
    /** "DeletedCompanies" */
    var deleted: seq<Company>

    constructor ()
      ensures activated == [] && restricted == [] && deleted == []
    {
      activated, restricted, deleted := [], [], [];
    }

    /** InsertAsync: the company is appended, then the first active record with its CNPJ is returned. */
    method InsertAsync(company: Company) returns (companyResult: Company)
      modifies this
      ensures activated == old(activated) + [company]
      ensures restricted == old(restricted) && deleted == old(deleted)
      ensures Find(activated, CnpjOf, company.cnpj) == Some(companyResult)
      ensures companyResult.cnpj == company.cnpj
      ensures Find(old(activated), CnpjOf, company.cnpj).None? ==> companyResult == company
    {
      activated := activated + [company];
      FindAfterAppend(old(activated), CnpjOf, company);
      if Find(old(activated), CnpjOf, company.cnpj).None? {
        IndexOfPastMisses(old(activated), CnpjOf, company.cnpj, company);
      }
      companyResult := Find(activated, CnpjOf, company.cnpj).value;
    }

    /** FindByCnpjAsync: the first active company with that CNPJ. */
    function FindByCnpjAsync(cnpj: string): (r: Option<Company>)
      reads this
      ensures r.Some? ==> r.value in activated && r.value.cnpj == cnpj
      ensures r.Some? ==> IsFirstMatch(activated, CnpjOf, cnpj, r.value)
      ensures r.None? <==> forall c :: c in activated ==> c.cnpj != cnpj
    {
      Find(activated, CnpjOf, cnpj)
    }

    /** FindByCnpjRestrictedAsync: the first restricted company with that CNPJ. */
    function FindByCnpjRestrictedAsync(cnpj: string): (r: Option<Company>)
      reads this
      ensures r.Some? ==> r.value in restricted && r.value.cnpj == cnpj
      ensures r.Some? ==> IsFirstMatch(restricted, CnpjOf, cnpj, r.value)
      ensures r.None? <==> forall c :: c in restricted ==> c.cnpj != cnpj
    {
      Find(restricted, CnpjOf, cnpj)
    }

    /** FindByCnpjDeletedAsync: the first deleted company with that CNPJ. */
    function FindByCnpjDeletedAsync(cnpj: string): (r: Option<Company>)
      reads this
      ensures r.Some? ==> r.value in deleted && r.value.cnpj == cnpj
      ensures r.Some? ==> IsFirstMatch(deleted, CnpjOf, cnpj, r.value)
      ensures r.None? <==> forall c :: c in deleted ==> c.cnpj != cnpj
    {
      Find(deleted, CnpjOf, cnpj)
    }

    /**
     * DeleteAsync: taken from activated when it is there, otherwise from
     * restricted, and moved to deleted; in neither gives false, as does an exception.
     */
    method DeleteAsync(cnpj: string, fault: Fault) returns (ok: bool)
      modifies this
      ensures IndexOf(old(activated), CnpjOf, cnpj).Some? ==>
                Moved(activated, deleted, ok) == Transfer(old(activated), old(deleted), CnpjOf, cnpj, fault)
                && restricted == old(restricted)
      ensures IndexOf(old(activated), CnpjOf, cnpj).None? ==>
                Moved(restricted, deleted, ok) == Transfer(old(restricted), old(deleted), CnpjOf, cnpj, fault)
                && activated == old(activated)
    {
      if fault == TakeFails { return false; }
      var trash := IndexOf(activated, CnpjOf, cnpj);
      if trash.None? {
        var trashRestricted := IndexOf(restricted, CnpjOf, cnpj);
        if trashRestricted.None? { return false; }
        var c := restricted[trashRestricted.value];
        restricted := RemoveAt(restricted, trashRestricted.value);
        if fault == InsertFails { return false; }
        deleted := deleted + [c];
        return true;
      } else {
        var c := activated[trash.value];
        activated := RemoveAt(activated, trash.value);
        if fault == InsertFails { return false; }
        deleted := deleted + [c];
        return true;
      }
    }

    /** RestrictAsync: the company moves from activated to restricted; not active gives false. */
    method RestrictAsync(cnpj: string, fault: Fault) returns (ok: bool)
      modifies this
      ensures Moved(activated, restricted, ok) == Transfer(old(activated), old(restricted), CnpjOf, cnpj, fault)
      ensures deleted == old(deleted)
    {
      if fault == TakeFails { return false; }
      var company := IndexOf(activated, CnpjOf, cnpj);
      if company.None? { return false; }
      var c := activated[company.value];
      activated := RemoveAt(activated, company.value);
      if fault == InsertFails { return false; }
      restricted := restricted + [c];
      ok := true;
    }

    /** UnrestrictAsync: the company moves from restricted back to activated. */
    method UnrestrictAsync(cnpj: string, fault: Fault) returns (ok: bool)
      modifies this
      ensures Moved(restricted, activated, ok) == Transfer(old(restricted), old(activated), CnpjOf, cnpj, fault)
      ensures deleted == old(deleted)
    {
      if fault == TakeFails { return false; }
      var found := IndexOf(restricted, CnpjOf, cnpj);
      if found.None? { return false; }
      var c := restricted[found.value];
      restricted := RemoveAt(restricted, found.value);
      if fault == InsertFails { return false; }
      activated := activated + [c];
      ok := true;
    }

    /** UndeleteCompanyAsync: the company moves from deleted back to activated. */
    method UndeleteCompanyAsync(cnpj: string, fault: Fault) returns (ok: bool)
      modifies this
      ensures Moved(deleted, activated, ok) == Transfer(old(deleted), old(activated), CnpjOf, cnpj, fault)
      ensures restricted == old(restricted)
    {
      if fault == TakeFails { return false; }
      var found := IndexOf(deleted, CnpjOf, cnpj);
      if found.None? { return false; }
      var c := deleted[found.value];
      deleted := RemoveAt(deleted, found.value);
      if fault == InsertFails { return false; }
      activated := activated + [c];
      ok := true;
    }

    /** Update: ReplaceOne of the whole first active record with that CNPJ; always acknowledged. */
    method Update(cnpj: string, company: Company) returns (ok: bool)
      modifies this
      ensures activated == ReplaceFirst(old(activated), CnpjOf, cnpj, company)
      ensures restricted == old(restricted) && deleted == old(deleted)
      ensures ok
    {
      var i := IndexOf(activated, CnpjOf, cnpj);
      if i.Some? {
        activated := activated[i.value := company];
      }
      ok := true;
    }

    /** UpdateStatusAsync: only the Status of the first active match changes. */
    method UpdateStatusAsync(cnpj: string, status: bool)
      modifies this
      ensures var i := IndexOf(old(activated), CnpjOf, cnpj);
        activated == (if i.None? then old(activated) else old(activated)[i.value := old(activated)[i.value].(status := Some(status))])
      ensures restricted == old(restricted) && deleted == old(deleted)
    {
      var i := IndexOf(activated, CnpjOf, cnpj);
      if i.Some? {
        activated := activated[i.value := activated[i.value].(status := Some(status))];
      }
    }
  }
}
