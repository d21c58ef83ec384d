/**
 * The webhook endpoint (src/controllers/webhook.controller.ts): an event is
 * dispatched on its `type` to one of eleven handlers. Only the two company
 * handlers touch the store: `company.updated` merges the event's name and
 * description into the stored record, `company.deleted` removes it. The
 * other nine handlers, and an unknown type, do nothing. The endpoint answers
 * 200 when the handler completes and 500 when it throws.
 *
 * `CompanyUpdatedEffect`, `CompanyDeletedEffect` and `EventEffect` state what
 * a handler yields and what store it leaves, as functions of the store it
 * found; the methods are proved against them.
 */
module WebhookController {
  import opened Wrappers
  import opened Constants
  import opened Http
  import opened CompanyDB
  import opened OAuth

  const WEBHOOK_FAILED: string := "Failed to process webhook"
  /** The `TypeError` of reading `data.id` when the event carries no `data`. */
  const DATA_MISSING: string := "Cannot read properties of undefined (reading 'id')"

  /** The properties of `event.data` the company handlers read; `None` is a property left out. */
  datatype EventData = EventData(id: string, name: Option<string>, description: Option<string>)

  /** A webhook event as posted: its `type` and its `data`, either of which may be missing. */
  datatype WebhookEvent = WebhookEvent(eventType: Option<string>, data: Option<EventData>)

  /** The private handlers `processEvent` can call, and the `default` branch. */
  datatype Handler =
    | CompanyUpdated | CompanyDeleted
    | OrderCreated | OrderUpdated
    | ProductCreated | ProductUpdated
    | SubscriptionCreated | SubscriptionUpdated | SubscriptionCancelled
    | PaymentSucceeded | PaymentFailed
    | Unhandled

  /** Whether a handler ran to the end or threw. */
  datatype Completion = Done | Threw(error: string)

  // ---------------------------------------------------------------- dispatch

  /** The `switch (event.type)` of `processEvent`. */
  function HandlerFor(eventType: Option<string>): (h: Handler)
    ensures h != Unhandled <==> eventType.Some? && eventType.value in WEBHOOK_EVENTS
  {
    if eventType.None? then Unhandled
    else
      var t := eventType.value;
      if t == COMPANY_UPDATED then CompanyUpdated
      else if t == COMPANY_DELETED then CompanyDeleted
      else if t == ORDER_CREATED then OrderCreated
      else if t == ORDER_UPDATED then OrderUpdated
      else if t == PRODUCT_CREATED then ProductCreated
      else if t == PRODUCT_UPDATED then ProductUpdated
      else if t == SUBSCRIPTION_CREATED then SubscriptionCreated
      else if t == SUBSCRIPTION_UPDATED then SubscriptionUpdated
      else if t == SUBSCRIPTION_CANCELLED then SubscriptionCancelled
      else if t == PAYMENT_SUCCEEDED then PaymentSucceeded
      else if t == PAYMENT_FAILED then PaymentFailed
      else Unhandled
  }

  /** The event name each handler is registered under. */
  function EventName(h: Handler): string
    requires h != Unhandled
  {
    match h
    case CompanyUpdated => COMPANY_UPDATED
    case CompanyDeleted => COMPANY_DELETED
    case OrderCreated => ORDER_CREATED
    case OrderUpdated => ORDER_UPDATED
    case ProductCreated => PRODUCT_CREATED
    case ProductUpdated => PRODUCT_UPDATED
    case SubscriptionCreated => SUBSCRIPTION_CREATED
    case SubscriptionUpdated => SUBSCRIPTION_UPDATED
    case SubscriptionCancelled => SUBSCRIPTION_CANCELLED
    case PaymentSucceeded => PAYMENT_SUCCEEDED
    case PaymentFailed => PAYMENT_FAILED
  }

  /**
   * Each of the eleven event names dispatches to its own handler, each
   * handler is reached from exactly its own name, and every other type
   * (or none) reaches the `default` branch.
   */
  lemma DispatchIsOneToOne(eventType: Option<string>, h: Handler)
    ensures h != Unhandled ==> HandlerFor(Some(EventName(h))) == h && EventName(h) in WEBHOOK_EVENTS
    ensures HandlerFor(eventType) != Unhandled ==>
      eventType.Some? && eventType.value in WEBHOOK_EVENTS && EventName(HandlerFor(eventType)) == eventType.value
    ensures eventType.Some? && eventType.value !in WEBHOOK_EVENTS ==> HandlerFor(eventType) == Unhandled
  {
  }

  /** The eleven names of `WEBHOOK_EVENTS` reach eleven different handlers. */
  lemma EventsReachDistinctHandlers(i: int, j: int)
    requires 0 <= i < |WEBHOOK_EVENTS| && 0 <= j < |WEBHOOK_EVENTS|
    ensures HandlerFor(Some(WEBHOOK_EVENTS[i])) != Unhandled
    ensures i != j ==> HandlerFor(Some(WEBHOOK_EVENTS[i])) != HandlerFor(Some(WEBHOOK_EVENTS[j]))
  {
    var hi, hj := HandlerFor(Some(WEBHOOK_EVENTS[i])), HandlerFor(Some(WEBHOOK_EVENTS[j]));
    DispatchIsOneToOne(Some(WEBHOOK_EVENTS[i]), hi);
    DispatchIsOneToOne(Some(WEBHOOK_EVENTS[j]), hj);
  }

  // ------------------------------------------------------ the company handlers

  /** `{name: data.name || company.name, description: data.description || company.description}` */
  function Merge(c: Company, d: EventData): (r: Patch)
    ensures r.handle.None? && r.logoUrl.None? && r.authorizationCode.None? && r.accessToken.None?
      && r.refreshToken.None? && r.tokenExpiresAt.None? && r.phone.None?
    ensures r.name == Some(if Truthy(d.name) then d.name.value else c.name)
    ensures Truthy(d.description) ==> r.description == Some(d.description)
    ensures !Truthy(d.description) ==> r.description == Some(c.description)
  {
    Patch(None, Some(if Truthy(d.name) then d.name.value else c.name),
          Some(if Truthy(d.description) then d.description else c.description),
          None, None, None, None, None, None)
  }

  /** What `handleCompanyUpdated` yields, and the store it leaves. */
  function CompanyUpdatedEffect(m: map<string, Company>, available: bool, data: Option<EventData>, now: int)
    : (Completion, map<string, Company>)
  {
    if data.None? then (Threw(DATA_MISSING), m)
    else if !available then (Threw(DB_UNAVAILABLE), m)
    else if data.value.id !in m then (Done, m)
    else (Done, m[data.value.id := Patched(m[data.value.id], Merge(m[data.value.id], data.value), now)])
  }

  /** What `handleCompanyDeleted` yields, and the store it leaves: every store error is swallowed. */
  function CompanyDeletedEffect(m: map<string, Company>, available: bool, data: Option<EventData>)
    : (Completion, map<string, Company>)
  {
    if data.None? then (Threw(DATA_MISSING), m)
    else if !available then (Done, m)
    else (Done, m - {data.value.id})
  }

  /** What `processEvent` yields, and the store it leaves. */
  function EventEffect(m: map<string, Company>, available: bool, event: WebhookEvent, now: int)
    : (Completion, map<string, Company>)
  {
    match HandlerFor(event.eventType)
    case CompanyUpdated => CompanyUpdatedEffect(m, available, event.data, now)
    case CompanyDeleted => CompanyDeletedEffect(m, available, event.data)
    case _ => (Done, m)
  }

  /**
   * `company.updated` for a stored company sets its name to the event's
   * name when that is non-empty and keeps the stored one otherwise, does the
   * same for the description, stamps the update time, and changes nothing
   * else; for an id that is not stored it changes nothing at all.
   */
  lemma UpdateMergesNameAndDescription(m: map<string, Company>, d: EventData, now: int)
    ensures d.id !in m ==> CompanyUpdatedEffect(m, true, Some(d), now) == (Done, m)
    ensures d.id in m ==>
      CompanyUpdatedEffect(m, true, Some(d), now).1 ==
      m[d.id := m[d.id].(name := if Truthy(d.name) then d.name.value else m[d.id].name,
                         description := if Truthy(d.description) then d.description else m[d.id].description,
                         updatedAt := now)]
  {
  }

  /** An update writes the record's own handle back, which no other record holds. */
  lemma OwnHandleIsFree(m: map<string, Company>, id: string, p: Patch, now: int)
    requires StoreInvariant(m) && id in m && p.handle.None?
    ensures !HandleTaken(m, Patched(m[id], p, now).handle, id)
  {
  }

  /** Every event leaves the store keyed and its handles unique. */
  lemma EventKeepsInvariant(m: map<string, Company>, available: bool, event: WebhookEvent, now: int)
    requires StoreInvariant(m)
    ensures StoreInvariant(EventEffect(m, available, event, now).1)
  {
    if HandlerFor(event.eventType) == CompanyUpdated && event.data.Some? && available && event.data.value.id in m {
      var id := event.data.value.id;
      OwnHandleIsFree(m, id, Merge(m[id], event.data.value), now);
      PatchKeepsInvariant(m, id, Merge(m[id], event.data.value), now);
    } else if HandlerFor(event.eventType) == CompanyDeleted && event.data.Some? && available {
      DeleteKeepsInvariant(m, event.data.value.id);
    }
  }

  /**
   * Only the two company events write to the store; `company.deleted`
   * always completes and afterwards the id is gone (when the store can be
   * reached), whether or not it was stored.
   */
  lemma OnlyCompanyEventsWrite(m: map<string, Company>, available: bool, event: WebhookEvent, now: int)
    ensures HandlerFor(event.eventType) != CompanyUpdated && HandlerFor(event.eventType) != CompanyDeleted ==>
      EventEffect(m, available, event, now) == (Done, m)
    ensures HandlerFor(event.eventType) == CompanyDeleted && event.data.Some? ==>
      EventEffect(m, available, event, now).0 == Done
      && (available ==> event.data.value.id !in EventEffect(m, available, event, now).1)
      && forall k :: k in m && k != event.data.value.id ==>
           k in EventEffect(m, available, event, now).1 && EventEffect(m, available, event, now).1[k] == m[k]
  {
  }

  /** `handleCompanyUpdated(event)` */
  method HandleCompanyUpdated(db: CompanyDBService, data: Option<EventData>, now: int) returns (r: Completion)
    requires db.Valid()
    modifies db
    ensures db.Valid()
    ensures (r, db.companies) == CompanyUpdatedEffect(old(db.companies), db.available, data, now)
  {
    if data.None? {
      return Threw(DATA_MISSING);
    }
    var company := db.FindByCompanyId(data.value.id);
    if company.Failure? {
      return Threw(company.error);
    }
    if company.value.Some? {
      var c := company.value.value;
      OwnHandleIsFree(db.companies, data.value.id, Merge(c, data.value), now);
      var updated := db.UpdateById(data.value.id, Merge(c, data.value), now);
      assert updated.Success?;
    }
    return Done;
  }

  /** `handleCompanyDeleted(event)` */
  method HandleCompanyDeleted(db: CompanyDBService, data: Option<EventData>) returns (r: Completion)
    requires db.Valid()
    modifies db
    ensures db.Valid()
    ensures (r, db.companies) == CompanyDeletedEffect(old(db.companies), db.available, data)
  {
    if data.None? {
      return Threw(DATA_MISSING);
    }
    assert data.value.id !in db.companies ==> db.companies - {data.value.id} == db.companies;
    var deleted := db.DeleteById(data.value.id);
    return Done;
  }

  /** `processEvent(event)` */
  method ProcessEvent(db: CompanyDBService, event: WebhookEvent, now: int) returns (r: Completion)
    requires db.Valid()
    modifies db
    ensures db.Valid()
    ensures (r, db.companies) == EventEffect(old(db.companies), db.available, event, now)
  {
    match HandlerFor(event.eventType)
    case CompanyUpdated =>
      r := HandleCompanyUpdated(db, event.data, now);
    case CompanyDeleted =>
      r := HandleCompanyDeleted(db, event.data);
    case _ =>
      r := Done;
  }

  /** `handle(req, res)`: 200 `{success: true}` when the event was processed, 500 when it threw. */
  method Handle(db: CompanyDBService, event: WebhookEvent, res: Response, now: int)
    requires db.Valid()
    modifies db, res
    ensures db.Valid()
    ensures db.companies == EventEffect(old(db.companies), db.available, event, now).1
    ensures EventEffect(old(db.companies), db.available, event, now).0 == Done ==>
      res.statusCode == HTTP_OK && res.body == Some(SuccessOnly(true))
    ensures EventEffect(old(db.companies), db.available, event, now).0.Threw? ==>
      res.statusCode == HTTP_INTERNAL_SERVER_ERROR && res.body == Some(ErrorBody(WEBHOOK_FAILED))
    ensures res.cookieOps == old(res.cookieOps) && res.location == old(res.location)
  {
    var r := ProcessEvent(db, event, now);
    if r.Threw? {
      res.Status(HTTP_INTERNAL_SERVER_ERROR);
      res.SendJson(ErrorBody(WEBHOOK_FAILED));
      return;
    }
    res.Status(HTTP_OK);
    res.SendJson(SuccessOnly(true));
  }
}
