/** When a checkout is opened or confirmed, and what exactly is recorded, told from Stripe's own records. */
module CheckoutEffects {
  import opened Base
  import Text
  import opened Billing

  // ----- Statuses and bands by name -----

  const STATUS_NAMES := {"trialing", "active", "past_due", "unpaid", "canceled", "incomplete", "incomplete_expired"}

  /** The name of a status Stripe reports; `Legacy` and `Unknown` are the service's own. */
  function StatusName(s: Status): (name: string)
    ensures s != Legacy && s != Unknown ==> name in STATUS_NAMES
  {
    match s
    case Legacy => "legacy"
    case Trialing => "trialing"
    case Active => "active"
    case PastDue => "past_due"
    case Unpaid => "unpaid"
    case Canceled => "canceled"
    case Incomplete => "incomplete"
    case IncompleteExpired => "incomplete_expired"
    case Unknown => "unknown"
  }

  /** A reported status is read as the one of that name, blanks around it aside, and as unknown if there is none. */
  lemma StatusIsItsName(raw: string)
    ensures if Text.Trim(raw) in STATUS_NAMES then StatusName(ParseStatus(raw)) == Text.Trim(raw)
            else ParseStatus(raw) == Unknown
    ensures ParseStatus(raw) != Legacy
  {
  }

  lemma ActiveByName(raw: string)
    ensures ParseStatus(raw) == Active <==> Text.Trim(raw) == "active"
  {
  }

  /** The key of the plan that many seats are sold as. */
  function BandKey(seats: int): string {
    if seats <= 5 then "starter" else if seats <= 10 then "team" else "scale"
  }

  lemma OrderedBand(planKey: string, seats: int, activeUsers: int)
    ensures ValidateCheckout(planKey, seats, activeUsers).Ok? <==>
      seats >= 1 && seats >= activeUsers && planKey == BandKey(seats)
  {
    PlanForSeatsIs(seats);
    CheckoutSellsTheBand(planKey, seats, activeUsers);
    BandsPartitionSeats(seats, PlanForSeats(seats));
    assert STARTER in PLANS && TEAM in PLANS && SCALE in PLANS;
  }

  // ----- The subscription found -----

  /** Stripe still knows a subscription by that id, and it is `s`. */
  predicate Live(a: Account, id: Option<string>, s: Subscription) {
    id.Some? && id.value in a.subscriptions && a.subscriptions[id.value] == s && !s.gone
  }

  /**
   * The subscription found is the recorded one if Stripe still knows it, or else the customer's
   * latest; a failure to ask ends the search.
   */
  lemma FoundIff(w: World, c: Company, latest: Option<string>, faults: set<Op>, s: Subscription)
    ensures FetchSubscription(w, c, latest, faults) == Some(s) <==>
      && w.configured && (c.subscription.Some? ==> GetSubscription !in faults)
      && (Live(w.account, c.subscription, s)
          || ((forall t :: !Live(w.account, c.subscription, t))
              && c.customer.Some? && ListSubscriptions !in faults && Live(w.account, latest, s)))
  {
    if c.subscription.Some? && c.subscription.value in w.account.subscriptions {
      var t := w.account.subscriptions[c.subscription.value];
      assert !t.gone ==> Live(w.account, c.subscription, t);
    }
  }

  // ----- When a checkout is opened -----

  /** A subscription that Stripe reports as active is found for the company. */
  ghost predicate ActiveFound(w: World, o: Order)
    requires o.company in w.companies
  {
    exists s ::
      FetchSubscription(w, w.companies[o.company], o.latest, o.faults) == Some(s) && Text.Trim(s.status) == "active"
  }

  /** An order that asks for the band its seats lie in, and for enough of them, with nothing failing on the way. */
  predicate Sellable(w: World, o: Order) {
    && w.configured && o.company in w.companies && o.faults !! {ReadRecord, CountUsers, GetPrice}
    && o.seats >= 1 && o.seats >= o.activeUsers && o.planKey == BandKey(o.seats)
  }

  lemma NoObjectionIff(w: World, o: Order)
    ensures Objection(w, o).None? <==> Sellable(w, o) && !ActiveFound(w, o)
    ensures Sellable(w, o) && ActiveFound(w, o) ==> Objection(w, o) == Some(AlreadyActive)
  {
    OrderedBand(o.planKey, o.seats, o.activeUsers);
    if o.company in w.companies {
      var sub := FetchSubscription(w, w.companies[o.company], o.latest, o.faults);
      if sub.Some? { ActiveByName(sub.value.status); }
    }
  }

  /** A company with an active subscription is turned away, and nothing is written. */
  lemma ActiveIsTurnedAway(w: World, o: Order)
    requires Sellable(w, o) && ActiveFound(w, o)
    ensures Objection(w, o) == Some(AlreadyActive) && !Opens(w, o) && AfterStart(w, o) == w
  {
    NoObjectionIff(w, o);
  }

  /** The customer a checkout is for: the recorded one, or the one created for it. */
  function CustomerFor(w: World, o: Order): string
    requires o.company in w.companies
  {
    if w.companies[o.company].customer.Some? then w.companies[o.company].customer.value else o.newCustomer
  }

  /**
   * Exactly when a session is opened; it sells the seats and plan ordered to the company's customer,
   * and besides it only a new customer is written down.
   */
  lemma OpensIff(w: World, o: Order)
    ensures Opens(w, o) <==>
      && Sellable(w, o) && !ActiveFound(w, o) && CreateSession !in o.faults
      && (w.companies[o.company].customer.Some? || o.faults !! {CreateCustomer, SaveCustomer})
    ensures Opens(w, o) ==>
      var v, c, customer := AfterStart(w, o), w.companies[o.company], CustomerFor(w, o);
      && v.configured == w.configured
      && v.companies == w.companies[o.company := c.(customer := Some(customer))]
      && v.account.customers == (if c.customer.Some? then w.account.customers else w.account.customers + {customer})
      && v.account.subscriptions == w.account.subscriptions
      && v.account.sessions == w.account.sessions[o.newSession := Session(o.company, customer, o.planKey, o.seats,
           if c.subscription.None? then Some(30) else None, Open, None)]
  {
    NoObjectionIff(w, o);
    if Opens(w, o) {
      var c := w.companies[o.company];
      assert c.customer.Some? ==> w.companies == w.companies[o.company := c.(customer := Some(c.customer.value))];
    }
  }

  /** Otherwise no session is opened; at most a new customer is left behind, recorded if that worked. */
  lemma UnopenedLeavesAtMostACustomer(w: World, o: Order)
    requires !Opens(w, o)
    ensures var v := AfterStart(w, o);
      && v.configured == w.configured && v.account.sessions == w.account.sessions
      && v.account.subscriptions == w.account.subscriptions
      && (v == w ||
          (Sellable(w, o) && !ActiveFound(w, o) && CreateCustomer !in o.faults
           && w.companies[o.company].customer.None?
           && v.account.customers == w.account.customers + {o.newCustomer}
           && v.companies == if SaveCustomer in o.faults then w.companies
                else w.companies[o.company := w.companies[o.company].(customer := Some(o.newCustomer))]))
  {
    NoObjectionIff(w, o);
  }

  // ----- When a checkout is confirmed -----

  /**
   * Exactly when a confirmation goes through: the session is complete, and the subscription it
   * created is one of the company's recorded customer that Stripe still knows.
   */
  lemma ConfirmsIff(w: World, company: int, sessionId: string, faults: set<Op>)
    ensures Complaint(w, company, sessionId, faults).None? <==>
      && w.configured && faults !! {GetSession, GetSubscription, ReadRecord, SaveSubscription}
      && Text.Trim(sessionId) != "" && sessionId in w.account.sessions && company in w.companies
      && w.account.sessions[sessionId].status == Complete
      && exists s :: Live(w.account, w.account.sessions[sessionId].subscription, s)
           && w.companies[company].customer == Some(s.customer)
  {
    if sessionId in w.account.sessions && Known(w.account, w.account.sessions[sessionId].subscription) {
      var id := w.account.sessions[sessionId].subscription;
      assert Live(w.account, id, w.account.subscriptions[id.value]);
    }
  }

  /** What is recorded then: the subscription, the seats Stripe counts, and the band they lie in. */
  lemma ConfirmationRecords(w: World, company: int, sessionId: string, faults: set<Op>)
    requires Complaint(w, company, sessionId, faults).None?
    ensures var v, was, now := AfterConfirm(w, company, sessionId, faults), w.companies[company],
        AfterConfirm(w, company, sessionId, faults).companies[company];
      var id := w.account.sessions[sessionId].subscription;
      var quantity := w.account.subscriptions[id.value].quantity;
      && v == w.(companies := w.companies[company := now])
      && now.customer == was.customer && now.subscription == id && now.onboarded
      && now.planKey == Some(BandKey(quantity))
      && now.seats == Some(if -2147483648 <= quantity <= 2147483647 then quantity else 2147483647)
      && now.priceId == (if was.priceId.Some? then was.priceId else Some(""))
  {
    PlanForSeatsIs(w.account.subscriptions[w.account.sessions[sessionId].subscription.value].quantity);
  }

  /** Otherwise nothing is recorded. */
  lemma ComplaintRecordsNothing(w: World, company: int, sessionId: string, faults: set<Op>)
    requires Complaint(w, company, sessionId, faults).Some?
    ensures AfterConfirm(w, company, sessionId, faults) == w
  {
  }
}
