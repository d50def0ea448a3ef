/** The in-memory customer repository: snapshots by id and an email index. */
module Repository {
  import opened Prelude
  import opened Email
  import opened Customer

  datatype Repo = Repo(byId: map<string, Snapshot>, byEmail: map<string, string>)

  function Saved(r: Repo, snap: Snapshot): Result<Repo, DomainError> {
    if snap.id in r.byId && r.byId[snap.id].version > snap.version then Err(Conflict)
    else
      var index := if snap.id in r.byId && r.byId[snap.id].email != snap.email
                   then r.byEmail - {r.byId[snap.id].email} else r.byEmail;
      Ok(Repo(r.byId[snap.id := snap], index[snap.email := snap.id]))
  }

  /** The index is the exact inverse of the stored emails. */
  predicate Indexed(r: Repo) {
    && (forall id | id in r.byId :: r.byId[id].id == id && r.byId[id].email in r.byEmail && r.byEmail[r.byId[id].email] == id)
    && (forall e | e in r.byEmail :: r.byEmail[e] in r.byId && r.byId[r.byEmail[e]].email == e)
  }

  /** Some stored customer has this address. */
  predicate Taken(r: Repo, email: string) { exists id :: id in r.byId && r.byId[id].email == email }

  /** The index lookup answers what a scan over all customers would, and no two
      customers share an address. */
  lemma IndexAnswersScan(r: Repo)
    requires Indexed(r)
    ensures forall email :: email in r.byEmail <==> Taken(r, email)
    ensures forall a, b | a in r.byId && b in r.byId && r.byId[a].email == r.byId[b].email :: a == b
  {
    forall email ensures email in r.byEmail <==> Taken(r, email) {
      if email in r.byEmail { assert r.byId[r.byEmail[email]].email == email; }
    }
  }

  /** A save is refused if and only if a newer version is stored. Otherwise the snapshot
      is stored, its address leads to it, and the address it had before leads nowhere. */
  lemma SaveExactly(r: Repo, snap: Snapshot)
    ensures Saved(r, snap) == Err(Conflict) <==> snap.id in r.byId && r.byId[snap.id].version > snap.version
    ensures Saved(r, snap).Err? ==> Saved(r, snap) == Err(Conflict)
    ensures Saved(r, snap).Ok? ==>
              var r' := Saved(r, snap).value;
              && r'.byId.Keys == r.byId.Keys + {snap.id} && r'.byId[snap.id] == snap
              && (forall id | id in r.byId && id != snap.id :: r'.byId[id] == r.byId[id])
              && snap.email in r'.byEmail && r'.byEmail[snap.email] == snap.id
              && (forall e | e != snap.email :: e in r'.byEmail <==>
                    e in r.byEmail && !(snap.id in r.byId && r.byId[snap.id].email == e))
              && (forall e | e in r'.byEmail && e != snap.email :: e in r.byEmail && r'.byEmail[e] == r.byEmail[e])
  {
  }

  /** A save keeps the index exact if and only if its address is not someone else's. */
  lemma SaveKeepsIndexExactly(r: Repo, snap: Snapshot)
    requires Indexed(r) && Saved(r, snap).Ok?
    ensures Indexed(Saved(r, snap).value) <==> (snap.email in r.byEmail ==> r.byEmail[snap.email] == snap.id)
  {
    var r' := Saved(r, snap).value;
    if snap.email in r.byEmail && r.byEmail[snap.email] != snap.id {
      var other := r.byEmail[snap.email];
      assert r'.byId[other].email == snap.email && r'.byEmail[snap.email] != other;
    }
  }

  class MemoryRepository {
    var byId: map<string, Snapshot>
    var byEmail: map<string, string>

    function Value(): Repo
      reads this
    {
      Repo(byId, byEmail)
    }

    constructor ()
      ensures Value() == Repo(map[], map[])
    {
      byId, byEmail := map[], map[];
    }

    method FindByID(id: string) returns (r: Result<State, DomainError>)
      ensures id !in byId ==> r == Err(NotFound)
      ensures id in byId ==> r == FromSnapshot(byId[id])
    {
      if id !in byId {
        return Err(NotFound);
      }
      return FromSnapshot(byId[id]);
    }

    method Save(c: State) returns (err: Option<DomainError>)
      modifies this
      ensures match Saved(old(Value()), ToSnapshot(c))
              case Ok(r) => err == None && Value() == r
              case Err(e) => err == Some(e) && Value() == old(Value())
    {
      var snap := ToSnapshot(c);
      if snap.id in byId && byId[snap.id].version > snap.version {
        return Some(Conflict);
      }
      if snap.id in byId && byId[snap.id].email != snap.email {
        byEmail := byEmail - {byId[snap.id].email};
      }
      byId := byId[snap.id := snap];
      byEmail := byEmail[snap.email := snap.id];
      return None;
    }

    method ExistsByEmail(email: string) returns (taken: bool)
      ensures taken <==> email in byEmail
      ensures Indexed(Value()) ==> (taken <==> Taken(Value(), email))
    {
      taken := email in byEmail;
      if Indexed(Value()) { IndexAnswersScan(Value()); }
    }
  }
}
