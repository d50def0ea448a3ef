/** Exactly when each command takes effect, what it then leaves, and when each error
    is returned: in terms of the stored customers, not of the handlers' steps. */
module CommandsExact {
  import opened Prelude
  import opened Events
  import opened Email
  import opened Customer
  import opened Messaging
  import opened Outbox
  import opened Repository
  import opened Commands

  /** local@domain, for some local part and dotted domain. */
  ghost predicate IsAddress(text: string) {
    exists local: string, domain: string :: text == local + "@" + domain && WellFormed(local, domain)
  }

  lemma AddressAccepted(raw: string, address: string)
    requires IsNormal(raw, address)
    ensures NewEmail(raw) == if IsAddress(address) then Ok(address) else Err(Validation)
    ensures IsAddress(address) ==> IsEmail(address)
  {
    NewEmailExactly(raw, address);
    if NewEmail(raw).Ok? { NewEmailIdempotent(raw); }
  }

  /** The outbox with one event more, not yet delivered. */
  predicate Appended(s: Store, s': Store, e: Event, now: int) {
    s'.order == s.order + [e.id] && s'.byId == s.byId[e.id := Message(e, StatusPending, 0, now, None, "")]
  }

  // ---------- changing an email ----------

  /** The customer exists, is active, and gets an address that is neither its own nor
      anyone else's. */
  ghost predicate CanChange(w: World, id: string, address: string) {
    && id in w.repo.byId && w.repo.byId[id].status == "active"
    && IsAddress(address) && w.repo.byId[id].email != address && !Taken(w.repo, address)
  }

  lemma StoredIsSound(w: World, id: string)
    requires Inv(w) && id in w.repo.byId
    ensures var row := w.repo.byId[id];
            && row.id == id != "" && (row.status == "active" || row.status == "deactivated")
            && FromSnapshot(row) == Ok(State(id, row.name, row.email, if row.status == "active" then Active else Deactivated,
                                             row.createdAt, row.version, []))
  {
    var row := w.repo.byId[id];
    assert SoundSnapshot(row);
    Reloaded(row);
  }

  lemma ChangePersists(w: World, row: Snapshot, address: string, eventId: string, now: int)
    requires row.id in w.repo.byId && w.repo.byId[row.id] == row && row.status == "active" && row.email != address
    requires eventId !in w.store.byId
    ensures var c := State(row.id, row.name, row.email, Active, row.createdAt, row.version, []);
            var c' := WithEmail(c, address, now);
            && c'.Ok? && |c'.value.events| == 1
            && var (w', err) := Persisted(w, c'.value, [eventId], now);
            && err == None
            && w'.repo.byId == w.repo.byId[row.id := row.(email := address, version := row.version + 1)]
            && Appended(w.store, w'.store,
                        Event(eventId, CUSTOMER_EMAIL_CHANGED, "customer", row.id, now, 1, EmailChangedV1(row.id, row.email, address)), now)
  {
    var c := State(row.id, row.name, row.email, Active, row.createdAt, row.version, []);
    var d := CustomerEmailChanged(row.id, row.email, address, now);
    var c' := State(row.id, row.name, address, Active, row.createdAt, row.version + 1, [d]);
    assert WithEmail(c, address, now) == Ok(c') by { assert [] + [d] == [d]; }
    PersistOne(w, c', eventId, now);
    SavedRow(w.repo, row.(email := address, version := row.version + 1));
    StoredEvent(w.store, ToIntegrationEvent(d, eventId).value, now);
  }

  lemma SavedRow(r: Repo, snap: Snapshot)
    requires snap.id in r.byId ==> r.byId[snap.id].version <= snap.version
    ensures Saved(r, snap).Ok? && Saved(r, snap).value.byId == r.byId[snap.id := snap]
  {
  }

  lemma StoredEvent(s: Store, e: Event, now: int)
    requires e.id !in s.byId
    ensures Appended(s, AddOne(s, e, now), e, now)
  {
  }

  function LoadedState(row: Snapshot): State {
    State(row.id, row.name, row.email, if row.status == "active" then Active else Deactivated, row.createdAt, row.version, [])
  }

  /** What changing the address of a loaded customer should give. */
  predicate MovedAs(w: World, row: Snapshot, address: string, eventId: string, now: int, w': World, err: Option<DomainError>) {
    if row.email == address then w' == w && err == None
    else if address in w.repo.byEmail || row.status != "active" then w' == w && err == Some(Conflict)
    else
      && err == None
      && w'.repo.byId == w.repo.byId[row.id := row.(email := address, version := row.version + 1)]
      && Appended(w.store, w'.store,
                  Event(eventId, CUSTOMER_EMAIL_CHANGED, "customer", row.id, now, 1,
                        EmailChangedV1(row.id, row.email, address)), now)
  }

  lemma MovedExactly(w: World, row: Snapshot, address: string, eventId: string, now: int)
    requires row.id in w.repo.byId && w.repo.byId[row.id] == row && eventId !in w.store.byId
    requires row.status == "active" || row.status == "deactivated"
    ensures var (w', err) := MovedTo(w, LoadedState(row), address, eventId, now);
            MovedAs(w, row, address, eventId, now, w', err)
  {
    if row.email != address && address !in w.repo.byEmail && row.status == "active" {
      ChangePersists(w, row, address, eventId, now);
    }
  }

  lemma ChangeMoves(w: World, id: string, address: string, eventId: string, now: int)
    requires Inv(w) && eventId !in w.store.byId && id in w.repo.byId
    ensures w.repo.byId[id].id == id != ""
    ensures var (w', err) := MovedTo(w, LoadedState(w.repo.byId[id]), address, eventId, now);
            MovedAs(w, w.repo.byId[id], address, eventId, now, w', err)
  {
    StoredIsSound(w, id);
    MovedExactly(w, w.repo.byId[id], address, eventId, now);
  }

  /** The command comes down to that. */
  lemma ChangeLoads(w: World, id: string, newEmail: string, address: string, eventId: string, now: int)
    requires Inv(w) && IsNormal(newEmail, address)
    ensures id == "" || !IsAddress(address) ==> EmailChanged(w, id, newEmail, eventId, now) == (w, Some(Validation))
    ensures id != "" && IsAddress(address) && id !in w.repo.byId ==> EmailChanged(w, id, newEmail, eventId, now) == (w, Some(NotFound))
    ensures IsAddress(address) && id in w.repo.byId ==>
              EmailChanged(w, id, newEmail, eventId, now) == MovedTo(w, LoadedState(w.repo.byId[id]), address, eventId, now)
  {
    AddressAccepted(newEmail, address);
    if id in w.repo.byId { StoredIsSound(w, id); }
  }

  /** The change-email command, for every world and input: it takes effect if and only if
      it can, and then only this customer's address and version change and one event
      telling so is appended; otherwise nothing changes. */
  lemma ChangeExactly(w: World, id: string, newEmail: string, address: string, eventId: string, now: int)
    requires Inv(w) && eventId !in w.store.byId && IsNormal(newEmail, address)
    ensures var (w', err) := EmailChanged(w, id, newEmail, eventId, now);
            && (CanChange(w, id, address) ==>
                  var row := w.repo.byId[id];
                  && err == None
                  && w'.repo.byId == w.repo.byId[id := row.(email := address, version := row.version + 1)]
                  && Appended(w.store, w'.store,
                              Event(eventId, CUSTOMER_EMAIL_CHANGED, "customer", id, now, 1, EmailChangedV1(id, row.email, address)), now))
            && (!CanChange(w, id, address) ==> w' == w)
  {
    ChangeLoads(w, id, newEmail, address, eventId, now);
    IndexAnswersScan(w.repo);
    if IsAddress(address) && id in w.repo.byId { ChangeMoves(w, id, address, eventId, now); }
  }

  /** And when each error is returned. */
  lemma ChangeErrors(w: World, id: string, newEmail: string, address: string, eventId: string, now: int)
    requires Inv(w) && eventId !in w.store.byId && IsNormal(newEmail, address)
    ensures var err := EmailChanged(w, id, newEmail, eventId, now).1;
            && (err == Some(Validation) <==> id == "" || !IsAddress(address))
            && (err == Some(NotFound) <==> id != "" && IsAddress(address) && id !in w.repo.byId)
            && (err == Some(Conflict) <==>
                  && IsAddress(address) && id in w.repo.byId && w.repo.byId[id].email != address
                  && (Taken(w.repo, address) || w.repo.byId[id].status != "active"))
            && (err == None <==>
                  CanChange(w, id, address) || (IsAddress(address) && id in w.repo.byId && w.repo.byId[id].email == address))
  {
    ChangeLoads(w, id, newEmail, address, eventId, now);
    IndexAnswersScan(w.repo);
    if id in w.repo.byId { ChangeMoves(w, id, address, eventId, now); }
  }

  // ---------- creating a customer ----------

  /** A free address, an id, and a name of 1 to 200 characters. */
  ghost predicate CanCreate(w: World, name: string, newId: string, address: string) {
    IsAddress(address) && newId != "" && 1 <= |name| <= 200 && !Taken(w.repo, address)
  }

  lemma CreatePersists(w: World, name: string, address: string, newId: string, eventId: string, now: int)
    requires newId != "" && newId !in w.repo.byId && eventId !in w.store.byId && 1 <= |name| <= 200
    ensures Registered(newId, name, address, now).Ok? && |Registered(newId, name, address, now).value.events| == 1
    ensures var (w', err) := Persisted(w, Registered(newId, name, address, now).value, [eventId], now);
            && err == None
            && w'.repo.byId == w.repo.byId[newId := Snapshot(newId, name, address, "active", now, 1)]
            && Appended(w.store, w'.store,
                        Event(eventId, CUSTOMER_CREATED, "customer", newId, now, 1, CreatedV1(newId, name, address)), now)
  {
    var d := CustomerCreated(newId, name, address, now);
    var c := State(newId, name, address, Active, now, 1, [d]);
    assert Registered(newId, name, address, now) == Ok(c);
    SavedRow(w.repo, Snapshot(newId, name, address, "active", now, 1));
    PersistOne(w, c, eventId, now);
    StoredEvent(w.store, ToIntegrationEvent(d, eventId).value, now);
  }

  lemma CreatedExactly(w: World, name: string, address: string, newId: string, eventId: string, now: int)
    requires newId !in w.repo.byId && eventId !in w.store.byId
    ensures var (w', err) := CreatedAt(w, name, address, newId, eventId, now);
            && (newId != "" && address in w.repo.byEmail ==> w' == w && err == Some(Conflict))
            && (newId == "" || (address !in w.repo.byEmail && !(1 <= |name| <= 200)) ==> w' == w && err == Some(Validation))
            && (newId != "" && address !in w.repo.byEmail && 1 <= |name| <= 200 ==>
                  && err == None
                  && w'.repo.byId == w.repo.byId[newId := Snapshot(newId, name, address, "active", now, 1)]
                  && Appended(w.store, w'.store,
                              Event(eventId, CUSTOMER_CREATED, "customer", newId, now, 1, CreatedV1(newId, name, address)), now))
  {
    if newId != "" && address !in w.repo.byEmail && 1 <= |name| <= 200 {
      CreatePersists(w, name, address, newId, eventId, now);
    }
  }

  lemma CreateValidates(w: World, name: string, email: string, address: string, newId: string, eventId: string, now: int)
    requires IsNormal(email, address)
    ensures Created(w, name, email, newId, eventId, now)
         == if IsAddress(address) then CreatedAt(w, name, address, newId, eventId, now) else (w, Some(Validation))
  {
    AddressAccepted(email, address);
  }

  /** The create command, likewise. */
  lemma CreateExactly(w: World, name: string, email: string, address: string, newId: string, eventId: string, now: int)
    requires Inv(w) && newId !in w.repo.byId && eventId !in w.store.byId && IsNormal(email, address)
    ensures var (w', err) := Created(w, name, email, newId, eventId, now);
            && (CanCreate(w, name, newId, address) ==>
                  && err == None
                  && w'.repo.byId == w.repo.byId[newId := Snapshot(newId, name, address, "active", now, 1)]
                  && Appended(w.store, w'.store,
                              Event(eventId, CUSTOMER_CREATED, "customer", newId, now, 1, CreatedV1(newId, name, address)), now))
            && (!CanCreate(w, name, newId, address) ==> w' == w)
            && (err == None <==> CanCreate(w, name, newId, address))
            && (err == Some(Conflict) <==> IsAddress(address) && newId != "" && Taken(w.repo, address))
            && err != Some(NotFound)
  {
    CreateValidates(w, name, email, address, newId, eventId, now);
    CreatedExactly(w, name, address, newId, eventId, now);
    IndexAnswersScan(w.repo);
  }
}
