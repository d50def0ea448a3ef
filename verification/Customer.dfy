/** The customer aggregate, its event buffer and its snapshot. */
module Customer {
  import opened Prelude
  import opened Email

  datatype Status = Active | Deactivated

  datatype DomainEvent =
    | CustomerCreated(id: string, name: string, email: string, at: int)
    | CustomerEmailChanged(id: string, oldEmail: string, newEmail: string, at: int)
    | CustomerDeactivated(id: string, reason: string, at: int)
    | Unpublished(id: string)

  /** The aggregate's state and its buffered events. */
  datatype State = State(id: string, name: string, email: string, status: Status, createdAt: int, version: int,
                         events: seq<DomainEvent>)

  datatype Snapshot = Snapshot(id: string, name: string, email: string, status: string, createdAt: int, version: int)

  function ValidateName(name: string): Option<DomainError> {
    if name == "" || |name| > 200 then Some(Validation) else None
  }

  function NewCustomerID(v: string): Result<string, DomainError> {
    if v == "" then Err(Validation) else Ok(v)
  }

  function Registered(id: string, name: string, email: string, at: int): Result<State, DomainError> {
    if id == "" then Err(Validation)
    else if ValidateName(name).Some? then Err(ValidateName(name).value)
    else Ok(State(id, name, email, Active, at, 1, [CustomerCreated(id, name, email, at)]))
  }

  function WithEmail(s: State, newEmail: string, at: int): Result<State, DomainError> {
    if s.status == Deactivated then Err(Conflict)
    else if s.email == newEmail then Ok(s)
    else Ok(s.(email := newEmail, version := s.version + 1,
               events := s.events + [CustomerEmailChanged(s.id, s.email, newEmail, at)]))
  }

  function WithDeactivation(s: State, reason: string, at: int): State {
    if s.status == Deactivated then s
    else s.(status := Deactivated, version := s.version + 1,
            events := s.events + [CustomerDeactivated(s.id, reason, at)])
  }

  function StatusText(s: Status): string { match s case Active => "active" case Deactivated => "deactivated" }

  function ParseStatus(v: string): Result<Status, DomainError> {
    if v == "active" then Ok(Active) else if v == "deactivated" then Ok(Deactivated) else Err(Validation)
  }

  function ToSnapshot(s: State): Snapshot {
    Snapshot(s.id, s.name, s.email, StatusText(s.status), s.createdAt, s.version)
  }

  function FromSnapshot(s: Snapshot): Result<State, DomainError> {
    match NewCustomerID(s.id)
    case Err(e) => Err(e)
    case Ok(id) =>
      match NewEmail(s.email)
      case Err(e) => Err(e)
      case Ok(email) =>
        match ParseStatus(s.status)
        case Err(e) => Err(e)
        case Ok(status) => Ok(State(id, s.name, email, status, s.createdAt, s.version, []))
  }

  /** A state any sequence of validated operations can have left. */
  predicate Sound(s: State) { s.id != "" && IsEmail(s.email) && s.version >= 1 }

  /** Reloading a snapshot always succeeds and gives the same state, with the
      event buffer empty. */
  lemma SnapshotRoundTrip(s: State)
    requires Sound(s)
    ensures FromSnapshot(ToSnapshot(s)) == Ok(s.(events := []))
  {
    assert "active" != "deactivated" by { assert "active"[0] != "deactivated"[0]; }
  }

  /** Exactly which snapshots reload, and to what. */
  lemma ReloadExactly(s: Snapshot)
    ensures FromSnapshot(s).Ok? <==> s.id != "" && NewEmail(s.email).Ok? && (s.status == "active" || s.status == "deactivated")
    ensures FromSnapshot(s).Err? ==> FromSnapshot(s).error == Validation
    ensures FromSnapshot(s).Ok? ==>
              var c := FromSnapshot(s).value;
              && c.id == s.id && c.name == s.name && Ok(c.email) == NewEmail(s.email) && c.createdAt == s.createdAt
              && c.version == s.version && c.events == [] && (c.status == Active <==> s.status == "active")
  {
    assert "active"[0] != "deactivated"[0];
    if NewEmail(s.email).Err? { assert NewEmail(s.email).error == Validation; }
  }

  /** A customer is registered if and only if it has an id and a name of 1 to 200
      characters; it is then active, at version 1, with one event telling so. */
  lemma RegisteredExactly(id: string, name: string, email: string, at: int)
    ensures Registered(id, name, email, at)
         == if id != "" && 1 <= |name| <= 200
            then Ok(State(id, name, email, Active, at, 1, [CustomerCreated(id, name, email, at)])) else Err(Validation)
  {
  }

  /** What each change leaves alone, and what its event tells. */
  lemma ChangesTell(s: State, newEmail: string, reason: string, at: int)
    ensures WithEmail(s, newEmail, at).Err? <==> s.status == Deactivated
    ensures s.status == Deactivated ==> WithEmail(s, newEmail, at) == Err(Conflict) && WithDeactivation(s, reason, at) == s
    ensures s.status == Active && s.email == newEmail ==> WithEmail(s, newEmail, at) == Ok(s)
    ensures s.status == Active && s.email != newEmail ==>
              WithEmail(s, newEmail, at) == Ok(State(s.id, s.name, newEmail, Active, s.createdAt, s.version + 1,
                                                     s.events + [CustomerEmailChanged(s.id, s.email, newEmail, at)]))
    ensures s.status == Active ==>
              WithDeactivation(s, reason, at) == State(s.id, s.name, s.email, Deactivated, s.createdAt, s.version + 1,
                                                       s.events + [CustomerDeactivated(s.id, reason, at)])
  {
  }

  class Customer {
    var id: string
    var name: string
    var email: string
    var status: Status
    var createdAt: int
    var version: int
    var events: seq<DomainEvent>

    function Value(): State
      reads this
    {
      State(id, name, email, status, createdAt, version, events)
    }

    constructor (s: State)
      ensures Value() == s
    {
      id, name, email, status := s.id, s.name, s.email, s.status;
      createdAt, version, events := s.createdAt, s.version, s.events;
    }

    /** AggregateRoot.RecordEvent */
    method RecordEvent(e: DomainEvent)
      modifies this`events
      ensures events == old(events) + [e]
    {
      events := events + [e];
    }

    /** AggregateRoot.PullEvents: the buffer is handed over exactly once. */
    method PullEvents() returns (pulled: seq<DomainEvent>)
      modifies this`events
      ensures pulled == old(events) && events == []
    {
      pulled := events;
      events := [];
    }

    method ChangeEmail(newEmail: string, occurredAt: int) returns (err: Option<DomainError>)
      modifies this
      ensures match WithEmail(old(Value()), newEmail, occurredAt)
              case Ok(s) => err == None && Value() == s
              case Err(e) => err == Some(e) && Value() == old(Value())
    {
      if status == Deactivated {
        return Some(Conflict);
      }
      if email == newEmail {
        return None;
      }
      var was := email;
      email := newEmail;
      version := version + 1;
      RecordEvent(CustomerEmailChanged(id, was, newEmail, occurredAt));
      return None;
    }

    method Deactivate(reason: string, occurredAt: int)
      modifies this
      ensures Value() == WithDeactivation(old(Value()), reason, occurredAt)
    {
      if status == Deactivated {
        return;
      }
      status := Deactivated;
      version := version + 1;
      RecordEvent(CustomerDeactivated(id, reason, occurredAt));
    }
  }

  /** Registers a new customer, with its created event buffered. */
  method NewCustomer(id: string, name: string, email: string, at: int) returns (r: Result<Customer, DomainError>)
    ensures match Registered(id, name, email, at)
            case Ok(s) => r.Ok? && fresh(r.value) && r.value.Value() == s
            case Err(e) => r == Err(e)
  {
    if id == "" {
      return Err(Validation);
    }
    if name == "" || |name| > 200 {
      return Err(Validation);
    }
    var c := new Customer(State(id, name, email, Active, at, 1, []));
    c.RecordEvent(CustomerCreated(id, name, email, at));
    return Ok(c);
  }
}
