/** The integration-event envelope carried by every bus. */
module Events {
  /** Payload bytes, as the JSON record they encode. */
  datatype Payload =
    | CreatedV1(id: string, name: string, email: string)
    | EmailChangedV1(id: string, oldEmail: string, newEmail: string)
    | DeactivatedV1(id: string, reason: string)
    | NotJson(bytes: string)

  /** Times are integer ticks; 0 is the zero time. */
  datatype Event = Event(id: string, name: string, source: string, aggregateId: string,
                         occurredAt: int, version: int, payload: Payload)

  const CUSTOMER_CREATED := "customer.v1.created"
  const CUSTOMER_EMAIL_CHANGED := "customer.v1.email_changed"
  const CUSTOMER_DEACTIVATED := "customer.v1.deactivated"
  const ORDER_PLACED := "order.v1.placed"

  lemma NamesDiffer()
    ensures CUSTOMER_CREATED != CUSTOMER_EMAIL_CHANGED
    ensures CUSTOMER_CREATED != CUSTOMER_DEACTIVATED
    ensures CUSTOMER_EMAIL_CHANGED != CUSTOMER_DEACTIVATED
    ensures ORDER_PLACED != CUSTOMER_CREATED && ORDER_PLACED != CUSTOMER_EMAIL_CHANGED
    ensures ORDER_PLACED != CUSTOMER_DEACTIVATED
  {
    assert CUSTOMER_CREATED[12] == 'c' && CUSTOMER_EMAIL_CHANGED[12] == 'e' && CUSTOMER_DEACTIVATED[12] == 'd';
    assert ORDER_PLACED[0] == 'o' && CUSTOMER_CREATED[0] == 'c' && CUSTOMER_EMAIL_CHANGED[0] == 'c';
    assert CUSTOMER_DEACTIVATED[0] == 'c';
  }
}
