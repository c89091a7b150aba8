/** Creating domains and choosing the default one. */
module Domains {
  import opened Common
  import opened Models
  import opened Schema
  import opened UnitOfWork
  import opened Repository

  /** The domain an API call describes: only its name and value, everything else as by default. */
  function ApiDomain(name: string, value: string): Domain {
    Domain(name, value, Standard, false, false)
  }

  function DomainCreated(s: Store, id: Id, domain: Domain): Store {
    AfterCommit(s, Insert(s, NewDomain(id, domain)))
  }

  method CreateDomain(db: Database, id: Id, domain: Domain) returns (r: Result<Id>)
    requires db.store.Valid()
    modifies db
    ensures db.store == DomainCreated(old(db.store), id, domain) && db.store.Valid()
    ensures
      var s := old(db.store);
      var long := |domain.name| > 128 || |domain.value| > 2048;
      var taken :=
        || id in s.domains
        || domain.name in DomainNames(s.domains).Values || domain.value in DomainValues(s.domains).Values;
      && (r == Ok(id) <==> !long && !taken)
      && (r == Err(AlreadyExists) <==> !long && taken)
      && (r == Err(UowError) <==> long)
      && db.store == if r.Ok? then s.(domains := s.domains[id := domain]) else s
  {
    var session := new Session(db);
    session.Add(NewDomain(id, domain));
    ghost var before := db.store;
    assert InsertAll(before, [NewDomain(id, domain)]) == Insert(before, NewDomain(id, domain));
    var outcome := session.Commit();
    if outcome == RaisedAlreadyExists {
      return Err(AlreadyExists);
    }
    if outcome == RaisedUowError {
      return Err(UowError);
    }
    return Ok(id);
  }

  function WithDefault(domains: map<Id, Domain>, id: Id): map<Id, Domain> {
    map d | d in domains :: domains[d].(isDefault := d == id)
  }

  function DefaultSet(s: Store, id: Id): Store {
    if id in s.domains then s.(domains := WithDefault(s.domains, id)) else s
  }

  lemma DefaultKeepsColumns(domains: map<Id, Domain>, id: Id)
    ensures DomainNames(WithDefault(domains, id)) == DomainNames(domains)
    ensures DomainValues(WithDefault(domains, id)) == DomainValues(domains)
    ensures WithDefault(domains, id).Keys == domains.Keys
  {
  }

  lemma DefaultKeepsValid(s: Store, id: Id)
    requires s.Valid()
    ensures DefaultSet(s, id).Valid()
  {
    DefaultKeepsColumns(s.domains, id);
  }

  /** The loop of `set_default_domain`: every loaded domain gets its flag rewritten. */
  method FlagDomains(session: Session, id: Id)
    modifies session
    ensures session.store == old(session.store).(domains := WithDefault(old(session.store.domains), id))
    ensures session.pending == old(session.pending)
  {
    var domains := session.store.domains;
    var todo := domains.Keys;
    while todo != {}
      invariant todo <= domains.Keys && session.pending == old(session.pending)
      invariant session.store == old(session.store).(domains := session.store.domains)
      invariant session.store.domains.Keys == domains.Keys
      invariant forall d :: d in domains ==>
        session.store.domains[d] == if d in todo then domains[d] else domains[d].(isDefault := d == id)
      decreases todo
    {
      var d :| d in todo;
      todo := todo - {d};
      var row := domains[d].(isDefault := if d == id then true else false);
      session.store := session.store.(domains := session.store.domains[d := row]);
    }
    assert session.store.domains == WithDefault(domains, id);
  }

  /** `set_default_domain` rewrites every flag before it finds out that the id is unknown; raising then undoes all. */
  method SetDefaultDomain(db: Database, id: Id) returns (r: Result<()>)
    requires db.store.Valid()
    modifies db
    ensures db.store == DefaultSet(old(db.store), id) && db.store.Valid()
    ensures r == if id in old(db.store).domains then Ok(()) else Err(DomainNotFound)
    ensures r.Err? ==> db.store == old(db.store)
    ensures r.Ok? ==>
      && db.store == old(db.store).(domains := db.store.domains)
      && db.store.domains.Keys == old(db.store).domains.Keys
      && forall d :: d in db.store.domains ==>
           db.store.domains[d] == old(db.store).domains[d].(isDefault := d == id)
  {
    DefaultKeepsValid(db.store, id);
    var session := new Session(db);
    FlagDomains(session, id);
    assert id in session.store.domains ==> session.store.domains[id].isDefault;
    if !exists d :: d in session.store.domains && session.store.domains[d].isDefault {
      return Err(DomainNotFound);
    }
    var outcome := session.Commit();
    return Ok(());
  }

  /** A successful call leaves exactly the named domain as default, whatever was default before. */
  lemma ExactlyOneDefault(s: Store, id: Id)
    requires id in s.domains
    ensures Defaults(DefaultSet(s, id).domains) == {id}
    ensures DefaultDomain(DefaultSet(s, id).domains) == Ok(id)
  {
    assert Defaults(DefaultSet(s, id).domains) == {id};
  }

  /** A domain made through the API is standard, open to registrations and never the default. */
  lemma ApiDomainKeepsDefaults(s: Store, id: Id, name: string, value: string)
    ensures
      var domains := DomainCreated(s, id, ApiDomain(name, value)).domains;
      id in domains && id !in s.domains ==>
        && domains[id].name == name && domains[id].value == value
        && domains[id].kind == Standard && !domains[id].restricted
    ensures Defaults(DomainCreated(s, id, ApiDomain(name, value)).domains) == Defaults(s.domains)
  {
    var s' := DomainCreated(s, id, ApiDomain(name, value));
    assert forall d :: d in Defaults(s'.domains) <==> d in Defaults(s.domains);
  }
}
