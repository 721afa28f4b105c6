/**
 * Linking companies to Stripe: which customer and subscription is recorded against which company,
 * what a checkout may sell, and who is offered a free month.
 *
 * Each service call is one atomic step; Stripe answers from an account it may change between calls.
 */
module Billing {
  import opened Base
  import Text

  // ----- Plans -----

  datatype Plan = Plan(key: string, minSeats: int, maxSeats: Option<int>, unitAmount: int)

  const STARTER := Plan("starter", 1, Some(5), 1000)
  const TEAM := Plan("team", 6, Some(10), 700)
  const SCALE := Plan("scale", 11, None, 500)
  const PLANS := [STARTER, TEAM, SCALE]

  const I64_MAX: int := 0x7FFF_FFFF_FFFF_FFFF
  const I32_MAX: int := 0x7FFF_FFFF
  const I32_MIN: int := -0x8000_0000

  function ByKey(plans: seq<Plan>, key: string): Option<Plan> {
    if plans == [] then None else if plans[0].key == key then Some(plans[0]) else ByKey(plans[1..], key)
  }

  function FirstFit(plans: seq<Plan>, seats: int): Plan {
    if plans == [] then SCALE
    else if seats <= (if plans[0].maxSeats.Some? then plans[0].maxSeats.value else I64_MAX) then plans[0]
    else FirstFit(plans[1..], seats)
  }

  function PlanForSeats(seats: int): Plan {
    FirstFit(PLANS, seats)
  }

  predicate InBand(p: Plan, seats: int) {
    p.minSeats <= seats && (p.maxSeats.Some? ==> seats <= p.maxSeats.value)
  }

  lemma PlanForSeatsIs(seats: int)
    ensures PlanForSeats(seats) == if seats <= 5 then STARTER else if seats <= 10 then TEAM else SCALE
  {
    assert FirstFit([SCALE], seats) == SCALE;
    assert [TEAM, SCALE][1..] == [SCALE];
    assert FirstFit([TEAM, SCALE], seats) == if seats <= 10 then TEAM else SCALE;
    assert PLANS[1..] == [TEAM, SCALE];
  }

  /** A positive count lies in exactly one band, the one sold for it; any other count lies in none. */
  lemma BandsPartitionSeats(seats: int, p: Plan)
    requires p in PLANS
    ensures InBand(p, seats) <==> seats >= 1 && p == PlanForSeats(seats)
  {
    PlanForSeatsIs(seats);
  }

  /** The plan named is the band the seats lie in; no seats lie in no band and go with the lowest. */
  predicate PlanFits(key: string, seats: int) {
    if seats < 1 then key == STARTER.key else exists p :: p in PLANS && p.key == key && InBand(p, seats)
  }

  lemma PlanForSeatsFits(seats: int)
    ensures PlanFits(PlanForSeats(seats).key, seats)
  {
    PlanForSeatsIs(seats);
    assert STARTER in PLANS && TEAM in PLANS && SCALE in PLANS;
  }

  datatype Refusal =
    | NotConfigured | NoCompany | AlreadyActive | UnknownPlan | BadSeats | WrongPlan | TooFewSeats
    | BlankSession | NotComplete | NoSubscription | SubscriptionGone | OtherAccount | Unavailable

  function ValidateCheckout(planKey: string, seats: int, activeUsers: int): Result<Plan, Refusal> {
    var plan := ByKey(PLANS, planKey);
    if plan.None? then Err(UnknownPlan)
    else if seats < 1 then Err(BadSeats)
    else if PlanForSeats(seats) != plan.value then Err(WrongPlan)
    else if seats < activeUsers then Err(TooFewSeats)
    else Ok(plan.value)
  }

  lemma {:induction false} ByKeyFinds(plans: seq<Plan>, key: string)
    ensures ByKey(plans, key).Some? <==> exists p :: p in plans && p.key == key
    ensures ByKey(plans, key).Some? ==> ByKey(plans, key).value in plans && ByKey(plans, key).value.key == key
  {
    if plans != [] {
      ByKeyFinds(plans[1..], key);
      assert plans == [plans[0]] + plans[1..];
    }
  }

  lemma KeysTellPlansApart(p: Plan, q: Plan)
    requires p in PLANS && q in PLANS && p.key == q.key
    ensures p == q
  {
    assert |STARTER.key| == 7 && |TEAM.key| == 4 && |SCALE.key| == 5;
  }

  /** What may be bought is settled by the seats alone: the plan named must be the band they lie in. */
  lemma CheckoutSellsTheBand(planKey: string, seats: int, activeUsers: int)
    ensures ValidateCheckout(planKey, seats, activeUsers).Ok? <==>
      seats >= 1 && seats >= activeUsers && exists p :: p in PLANS && p.key == planKey && InBand(p, seats)
    ensures ValidateCheckout(planKey, seats, activeUsers).Ok? ==>
      var p := ValidateCheckout(planKey, seats, activeUsers).value;
      p in PLANS && p.key == planKey && InBand(p, seats)
  {
    PlanForSeatsIs(seats);
    ByKeyFinds(PLANS, planKey);
    assert STARTER in PLANS && TEAM in PLANS && SCALE in PLANS;
    forall p, q | p in PLANS && q in PLANS && p.key == q.key ensures p == q {
      KeysTellPlansApart(p, q);
    }
  }

  /** The seat column is 32 bits wide; a count that does not fit becomes the largest that does. */
  function SavedSeats(quantity: int): int {
    if I32_MIN <= quantity <= I32_MAX then quantity else I32_MAX
  }

  /** The recorded plan is the band of the recorded seats exactly when the count does not underflow. */
  lemma SavedSeatsKeepTheBand(quantity: int)
    ensures PlanForSeats(SavedSeats(quantity)) == PlanForSeats(quantity) <==> quantity >= I32_MIN
  {
    PlanForSeatsIs(quantity);
    PlanForSeatsIs(SavedSeats(quantity));
  }

  // ----- Subscription status -----

  datatype Status =
    Legacy | Trialing | Active | PastDue | Unpaid | Canceled | Incomplete | IncompleteExpired | Unknown

  function ParseStatus(raw: string): Status {
    match Text.Trim(raw)
    case "trialing" => Trialing
    case "active" => Active
    case "past_due" => PastDue
    case "unpaid" => Unpaid
    case "canceled" => Canceled
    case "incomplete" => Incomplete
    case "incomplete_expired" => IncompleteExpired
    case _ => Unknown
  }

  predicate MayStartCheckout(s: Status) {
    s != Active
  }

  const TRIAL_DAYS := 30

  // ----- Companies and the Stripe account -----

  datatype Company = Company(customer: Option<string>, subscription: Option<string>, planKey: Option<string>,
    priceId: Option<string>, seats: Option<int>, onboarded: bool)

  const UNLINKED := Company(None, None, None, None, None, false)

  /** `gone` is a subscription Stripe no longer knows. */
  datatype Subscription = Subscription(customer: string, status: string, quantity: int, gone: bool)

  datatype SessionStatus = Open | Complete | Lapsed

  datatype Session = Session(company: int, customer: string, planKey: string, seats: int, trialDays: Option<int>,
    status: SessionStatus, subscription: Option<string>)

  datatype Account = Account(customers: set<string>, sessions: map<string, Session>,
    subscriptions: map<string, Subscription>)

  datatype World = World(configured: bool, companies: map<int, Company>, account: Account)

  /** The calls to the database and to Stripe that can fail. */
  datatype Op =
    | ReadRecord | CountUsers | GetSubscription | ListSubscriptions | GetPrice | CreateCustomer | SaveCustomer
    | CreateSession | GetSession | SaveSubscription

  /** A request to start a checkout; `latest` is what Stripe would list as the customer's latest subscription. */
  datatype Order = Order(company: int, activeUsers: int, planKey: string, seats: int, latest: Option<string>,
    newCustomer: string, newSession: string, faults: set<Op>)

  predicate Known(a: Account, id: Option<string>) {
    id.Some? && id.value in a.subscriptions && !a.subscriptions[id.value].gone
  }

  /** The recorded subscription, else the customer's latest; not being able to ask counts as having none. */
  function FetchSubscription(w: World, c: Company, latest: Option<string>, faults: set<Op>): Option<Subscription> {
    if !w.configured || (c.subscription.Some? && GetSubscription in faults) then None
    else if Known(w.account, c.subscription) then Some(w.account.subscriptions[c.subscription.value])
    else if c.customer.Some? && ListSubscriptions !in faults && Known(w.account, latest)
    then Some(w.account.subscriptions[latest.value])
    else None
  }

  function StatusOf(sub: Option<Subscription>): Status {
    if sub.None? then Legacy else ParseStatus(sub.value.status)
  }

  // ----- Starting a checkout -----

  /** Why an order is turned away before anything is written, if it is. */
  function Objection(w: World, o: Order): Option<Refusal> {
    if !w.configured then Some(NotConfigured)
    else if ReadRecord in o.faults then Some(Unavailable)
    else if o.company !in w.companies then Some(NoCompany)
    else if CountUsers in o.faults then Some(Unavailable)
    else if !MayStartCheckout(StatusOf(FetchSubscription(w, w.companies[o.company], o.latest, o.faults)))
    then Some(AlreadyActive)
    else
      var plan := ValidateCheckout(o.planKey, o.seats, o.activeUsers);
      if plan.Err? then Some(plan.error)
      else if GetPrice in o.faults then Some(Unavailable)
      else None
  }

  /** The company's customer is looked up, or created and then remembered. */
  function WithCustomer(w: World, o: Order): World
    requires o.company in w.companies
  {
    if w.companies[o.company].customer.Some? || CreateCustomer in o.faults then w
    else
      var created := w.(account := w.account.(customers := w.account.customers + {o.newCustomer}));
      if SaveCustomer in o.faults then created
      else created.(companies := w.companies[o.company := w.companies[o.company].(customer := Some(o.newCustomer))])
  }

  function WithSession(w: World, id: string, s: Session): World {
    w.(account := w.account.(sessions := w.account.sessions[id := s]))
  }

  function AfterStart(w: World, o: Order): World {
    if Objection(w, o).Some? then w
    else
      var linked := WithCustomer(w, o);
      var c := linked.companies[o.company];
      if c.customer.None? || CreateSession in o.faults then linked
      else
        var trialDays := if c.subscription.None? then Some(TRIAL_DAYS) else None;
        var session := Session(o.company, c.customer.value, o.planKey, o.seats, trialDays, Open, None);
        WithSession(linked, o.newSession, session)
  }

  predicate Opens(w: World, o: Order) {
    && Objection(w, o).None?
    && CreateSession !in o.faults
    && (w.companies[o.company].customer.Some? || (CreateCustomer !in o.faults && SaveCustomer !in o.faults))
  }

  // ----- Confirming a checkout -----

  function Complaint(w: World, company: int, sessionId: string, faults: set<Op>): Option<Refusal> {
    if Text.IsBlank(sessionId) then Some(BlankSession)
    else if !w.configured then Some(NotConfigured)
    else if GetSession in faults || sessionId !in w.account.sessions then Some(Unavailable)
    else
      var session := w.account.sessions[sessionId];
      if session.status != Complete then Some(NotComplete)
      else if session.subscription.None? then Some(NoSubscription)
      else if GetSubscription in faults then Some(Unavailable)
      else if !Known(w.account, session.subscription) then Some(SubscriptionGone)
      else if ReadRecord in faults then Some(Unavailable)
      else if company !in w.companies then Some(NoCompany)
      else if w.companies[company].customer != Some(w.account.subscriptions[session.subscription.value].customer)
      then Some(OtherAccount)
      else if SaveSubscription in faults then Some(Unavailable)
      else None
  }

  function AfterConfirm(w: World, company: int, sessionId: string, faults: set<Op>): World {
    if Complaint(w, company, sessionId, faults).Some? then w
    else
      var id := w.account.sessions[sessionId].subscription.value;
      var quantity := w.account.subscriptions[id].quantity;
      var c := w.companies[company];
      w.(companies := w.companies[company := Company(c.customer, Some(id), Some(PlanForSeats(quantity).key),
        Some(if c.priceId.Some? then c.priceId.value else ""), Some(SavedSeats(quantity)), true)])
  }

  class BillingService {
    const configured: bool
    var companies: map<int, Company>
    var account: Account

    constructor (configured: bool, account: Account)
      ensures Now() == World(configured, map[], account)
    {
      this.configured, this.companies, this.account := configured, map[], account;
    }

    ghost function Now(): World
      reads this
    {
      World(configured, companies, account)
    }

    method FetchStatus(company: int, latest: Option<string>, faults: set<Op>) returns (r: Result<Status, Refusal>)
      ensures r ==
        if ReadRecord in faults then Err(Unavailable)
        else if company !in companies then Err(NoCompany)
        else if CountUsers in faults then Err(Unavailable)
        else Ok(StatusOf(FetchSubscription(Now(), companies[company], latest, faults)))
    {
      if ReadRecord in faults {
        return Err(Unavailable);
      }
      if company !in companies {
        return Err(NoCompany);
      }
      if CountUsers in faults {
        return Err(Unavailable);
      }
      var record := companies[company];
      if !configured {
        return Ok(Legacy);
      }
      if record.subscription.Some? {
        if GetSubscription in faults {
          return Ok(Legacy);
        }
        if Known(account, record.subscription) {
          return Ok(ParseStatus(account.subscriptions[record.subscription.value].status));
        }
      }
      if record.customer.None? || ListSubscriptions in faults || !Known(account, latest) {
        return Ok(Legacy);
      }
      return Ok(ParseStatus(account.subscriptions[latest.value].status));
    }

    method StartCheckout(o: Order) returns (r: Result<string, Refusal>)
      modifies this
      ensures Now() == AfterStart(old(Now()), o)
      ensures r ==
        if Opens(old(Now()), o) then Ok(o.newSession)
        else Err(if Objection(old(Now()), o).Some? then Objection(old(Now()), o).value else Unavailable)
    {
      if !configured {
        return Err(NotConfigured);
      }
      var current := FetchStatus(o.company, o.latest, o.faults);
      if current.Err? {
        return Err(current.error);
      }
      if !MayStartCheckout(current.value) {
        return Err(AlreadyActive);
      }
      var plan := ValidateCheckout(o.planKey, o.seats, o.activeUsers);
      if plan.Err? {
        return Err(plan.error);
      }
      var record := companies[o.company];
      if GetPrice in o.faults {
        return Err(Unavailable);
      }

      var customer: string;
      if record.customer.Some? {
        customer := record.customer.value;
      } else {
        if CreateCustomer in o.faults {
          return Err(Unavailable);
        }
        customer := o.newCustomer;
        account := account.(customers := account.customers + {customer});
        if SaveCustomer in o.faults {
          return Err(Unavailable);
        }
        companies := companies[o.company := record.(customer := Some(customer))];
      }

      var trialDays := if record.subscription.None? then Some(TRIAL_DAYS) else None;
      if CreateSession in o.faults {
        return Err(Unavailable);
      }
      account := account.(sessions := account.sessions[o.newSession :=
        Session(o.company, customer, plan.value.key, o.seats, trialDays, Open, None)]);
      CheckoutSellsTheBand(o.planKey, o.seats, o.activeUsers);
      return Ok(o.newSession);
    }

    /** Reading the status back can fail after the subscription has been recorded. */
    method ConfirmCheckout(company: int, sessionId: string, latest: Option<string>, faults: set<Op>)
      returns (r: Result<Status, Refusal>)
      modifies this
      ensures Now() == AfterConfirm(old(Now()), company, sessionId, faults)
      ensures var complaint := Complaint(old(Now()), company, sessionId, faults);
        && (complaint.Some? ==> r == Err(complaint.value))
        && (complaint.None? ==>
          r == if CountUsers in faults then Err(Unavailable)
               else Ok(StatusOf(FetchSubscription(Now(), companies[company], latest, faults))))
    {
      if Text.IsBlank(sessionId) {
        return Err(BlankSession);
      }
      if !configured {
        return Err(NotConfigured);
      }
      if GetSession in faults || sessionId !in account.sessions {
        return Err(Unavailable);
      }
      var session := account.sessions[sessionId];
      if session.status != Complete {
        return Err(NotComplete);
      }
      if session.subscription.None? {
        return Err(NoSubscription);
      }
      var id := session.subscription.value;
      if GetSubscription in faults {
        return Err(Unavailable);
      }
      if !Known(account, session.subscription) {
        return Err(SubscriptionGone);
      }
      var subscription := account.subscriptions[id];
      if ReadRecord in faults {
        return Err(Unavailable);
      }
      if company !in companies {
        return Err(NoCompany);
      }
      var record := companies[company];
      if record.customer != Some(subscription.customer) {
        return Err(OtherAccount);
      }
      if SaveSubscription in faults {
        return Err(Unavailable);
      }
      var price := if record.priceId.Some? then record.priceId.value else "";
      companies := companies[company := record.(subscription := Some(id),
        planKey := Some(PlanForSeats(subscription.quantity).key), priceId := Some(price),
        seats := Some(SavedSeats(subscription.quantity)), onboarded := true)];
      r := FetchStatus(company, latest, faults);
    }
  }

  // ----- Runs -----

  /** What the service does, and what Stripe and the people using it do in between. */
  datatype Action =
    | Register(company: int)
    | Start(order: Order)
    | Confirm(company: int, sessionId: string, faults: set<Op>)
    | Finish(sessionId: string, created: Option<string>, status: string, quantity: int)
    | Lapse(sessionId: string)
    | Subscribe(customer: string, id: string, status: string, quantity: int)
    | Alter(id: string, status: string, quantity: int, gone: bool)

  /** What Stripe lists as latest is a subscription it knows of the company's customer, if there is one. */
  predicate ListsLatest(w: World, o: Order) {
    o.company in w.companies && w.companies[o.company].customer.Some? ==>
      var customer, subs := w.companies[o.company].customer.value, w.account.subscriptions;
      if o.latest.Some? then Known(w.account, o.latest) && subs[o.latest.value].customer == customer
      else forall id :: id in subs && subs[id].customer == customer ==> subs[id].gone
  }

  /** Ids Stripe creates are new, and seat counts it reports are not negative. */
  predicate Allowed(w: World, a: Action) {
    match a
    case Register(company) => company !in w.companies
    case Start(o) =>
      o.newCustomer !in w.account.customers && o.newSession !in w.account.sessions && ListsLatest(w, o)
    case Confirm(_, _, _) => true
    case Finish(id, created, _, quantity) =>
      && id in w.account.sessions && w.account.sessions[id].status == Open
      && (created.Some? ==> created.value !in w.account.subscriptions) && quantity >= 0
    case Lapse(id) => id in w.account.sessions && w.account.sessions[id].status == Open
    case Subscribe(customer, id, _, quantity) =>
      customer in w.account.customers && id !in w.account.subscriptions && quantity >= 0
    case Alter(id, _, quantity, _) => id in w.account.subscriptions && quantity >= 0
  }

  function WithSubscription(w: World, id: string, s: Subscription): World {
    w.(account := w.account.(subscriptions := w.account.subscriptions[id := s]))
  }

  function Next(w: World, a: Action): World
    requires Allowed(w, a)
  {
    match a
    case Register(company) => w.(companies := w.companies[company := UNLINKED])
    case Start(o) => AfterStart(w, o)
    case Confirm(company, id, faults) => AfterConfirm(w, company, id, faults)
    case Finish(id, created, status, quantity) =>
      var session := w.account.sessions[id];
      var v := if created.None? then w
               else WithSubscription(w, created.value, Subscription(session.customer, status, quantity, false));
      WithSession(v, id, session.(status := Complete, subscription := created))
    case Lapse(id) => WithSession(w, id, w.account.sessions[id].(status := Lapsed))
    case Subscribe(customer, id, status, quantity) =>
      WithSubscription(w, id, Subscription(customer, status, quantity, false))
    case Alter(id, status, quantity, gone) =>
      WithSubscription(w, id, Subscription(w.account.subscriptions[id].customer, status, quantity, gone))
  }

  ghost predicate ValidRun(w: World, run: seq<Action>)
    decreases |run|
  {
    run == [] || (Allowed(w, run[0]) && ValidRun(Next(w, run[0]), run[1..]))
  }

  ghost function After(w: World, run: seq<Action>): World
    requires ValidRun(w, run)
    decreases |run|
  {
    if run == [] then w else After(Next(w, run[0]), run[1..])
  }

  // ----- What every reachable state satisfies -----

  /** The recorded customer exists, and is recorded once. */
  ghost predicate CustomersSound(w: World) {
    && (forall c :: c in w.companies && w.companies[c].customer.Some? ==>
          w.companies[c].customer.value in w.account.customers)
    && (forall c, d ::
          c in w.companies && d in w.companies && w.companies[c].customer.Some? && c != d
          ==> w.companies[c].customer != w.companies[d].customer)
  }

  /** The recorded subscription is the recorded customer's, and what is recorded of it fits together. */
  ghost predicate CompanySound(a: Account, c: Company) {
    && (c.subscription.Some? ==>
          && c.subscription.value in a.subscriptions
          && c.customer == Some(a.subscriptions[c.subscription.value].customer)
          && c.seats.Some? && c.seats.value >= 0
          && c.planKey.Some? && PlanFits(c.planKey.value, c.seats.value)
          && c.onboarded)
    && c.priceId in {None, Some("")}
  }

  ghost predicate CompaniesSound(w: World) {
    forall c :: c in w.companies ==> CompanySound(w.account, w.companies[c])
  }

  /** A session is for its company's customer, sells the band its seats lie in, and so is what it creates. */
  ghost predicate SessionSound(w: World, s: Session) {
    && s.company in w.companies && w.companies[s.company].customer == Some(s.customer)
    && s.seats >= 1 && PlanFits(s.planKey, s.seats)
    && (s.status == Open ==> s.subscription.None?)
    && (s.subscription.Some? ==>
          s.subscription.value in w.account.subscriptions
          && w.account.subscriptions[s.subscription.value].customer == s.customer)
  }

  ghost predicate SessionsSound(w: World) {
    forall id :: id in w.account.sessions ==> SessionSound(w, w.account.sessions[id])
  }

  ghost predicate Inv(w: World) {
    && CustomersSound(w) && CompaniesSound(w) && SessionsSound(w)
    && (forall id :: id in w.account.subscriptions ==> w.account.subscriptions[id].quantity >= 0)
  }

  lemma StartSellsTheBand(w: World, o: Order)
    requires Objection(w, o).None?
    ensures o.seats >= 1 && PlanFits(o.planKey, o.seats)
  {
    CheckoutSellsTheBand(o.planKey, o.seats, o.activeUsers);
  }

  lemma ConfirmKeepsInv(w: World, company: int, sessionId: string, faults: set<Op>)
    requires Inv(w)
    ensures Inv(AfterConfirm(w, company, sessionId, faults))
  {
    if Complaint(w, company, sessionId, faults).None? {
      var v := AfterConfirm(w, company, sessionId, faults);
      var quantity := w.account.subscriptions[w.account.sessions[sessionId].subscription.value].quantity;
      SavedSeatsKeepTheBand(quantity);
      PlanForSeatsFits(SavedSeats(quantity));
      assert CompanySound(w.account, w.companies[company]);
      forall id | id in v.account.sessions ensures SessionSound(v, v.account.sessions[id]) {
        assert SessionSound(w, w.account.sessions[id]);
      }
    }
  }

  /** Subscriptions come and change, but never change hands. */
  lemma SubscriptionKeepsInv(w: World, id: string, s: Subscription)
    requires Inv(w) && s.quantity >= 0
    requires id in w.account.subscriptions ==> s.customer == w.account.subscriptions[id].customer
    ensures Inv(WithSubscription(w, id, s))
  {
    var v := WithSubscription(w, id, s);
    forall i | i in v.account.sessions ensures SessionSound(v, v.account.sessions[i]) {
      assert SessionSound(w, w.account.sessions[i]);
    }
    forall c | c in v.companies ensures CompanySound(v.account, v.companies[c]) {
      assert CompanySound(w.account, w.companies[c]);
    }
  }

  lemma SessionKeepsInv(w: World, id: string, s: Session)
    requires Inv(w) && SessionSound(w, s)
    ensures Inv(WithSession(w, id, s))
  {
    var v := WithSession(w, id, s);
    forall i | i in v.account.sessions ensures SessionSound(v, v.account.sessions[i]) {
      assert i != id ==> SessionSound(w, w.account.sessions[i]);
    }
    forall c | c in v.companies ensures CompanySound(v.account, v.companies[c]) {
      assert CompanySound(w.account, w.companies[c]);
    }
  }

  lemma RegisterKeepsInv(w: World, company: int)
    requires Inv(w) && company !in w.companies
    ensures Inv(Next(w, Register(company)))
  {
    var v := Next(w, Register(company));
    forall i | i in v.account.sessions ensures SessionSound(v, v.account.sessions[i]) {
      assert SessionSound(w, w.account.sessions[i]);
    }
  }

  /** A new customer at Stripe, not yet recorded anywhere. */
  lemma NewCustomerKeepsInv(w: World, customer: string)
    requires Inv(w)
    ensures Inv(w.(account := w.account.(customers := w.account.customers + {customer})))
  {
    var v := w.(account := w.account.(customers := w.account.customers + {customer}));
    forall id | id in v.account.sessions ensures SessionSound(v, v.account.sessions[id]) {
      assert SessionSound(w, w.account.sessions[id]);
    }
    forall c | c in v.companies ensures CompanySound(v.account, v.companies[c]) {
      assert CompanySound(w.account, w.companies[c]);
    }
  }

  /** Recording a customer nobody else has for a company that has none. */
  lemma RecordKeepsInv(w: World, company: int, customer: string)
    requires Inv(w) && company in w.companies && w.companies[company].customer.None?
    requires customer in w.account.customers
    requires forall c :: c in w.companies ==> w.companies[c].customer != Some(customer)
    ensures Inv(w.(companies := w.companies[company := w.companies[company].(customer := Some(customer))]))
  {
    var v := w.(companies := w.companies[company := w.companies[company].(customer := Some(customer))]);
    forall id | id in v.account.sessions ensures SessionSound(v, v.account.sessions[id]) {
      assert SessionSound(w, w.account.sessions[id]);
    }
    forall c | c in v.companies ensures CompanySound(v.account, v.companies[c]) {
      assert CompanySound(w.account, w.companies[c]);
    }
  }

  lemma LinkKeepsInv(w: World, o: Order)
    requires Inv(w) && o.company in w.companies && o.newCustomer !in w.account.customers
    ensures Inv(WithCustomer(w, o))
  {
    NewCustomerKeepsInv(w, o.newCustomer);
    if w.companies[o.company].customer.None? {
      RecordKeepsInv(w.(account := w.account.(customers := w.account.customers + {o.newCustomer})),
        o.company, o.newCustomer);
    }
  }

  lemma StartKeepsInv(w: World, o: Order)
    requires Inv(w) && Allowed(w, Start(o))
    ensures Inv(AfterStart(w, o))
  {
    if Objection(w, o).None? {
      StartSellsTheBand(w, o);
      LinkKeepsInv(w, o);
      var linked := WithCustomer(w, o);
      var v := AfterStart(w, o);
      if v != linked {
        SessionKeepsInv(linked, o.newSession, v.account.sessions[o.newSession]);
      }
    }
  }

  lemma StepKeepsInv(w: World, a: Action)
    requires Inv(w) && Allowed(w, a)
    ensures Inv(Next(w, a))
  {
    match a
    case Register(company) => RegisterKeepsInv(w, company);
    case Start(o) => StartKeepsInv(w, o);
    case Confirm(company, id, faults) => ConfirmKeepsInv(w, company, id, faults);
    case Finish(id, created, status, quantity) =>
      var s := w.account.sessions[id];
      assert SessionSound(w, s);
      if created.Some? {
        var sub := Subscription(s.customer, status, quantity, false);
        SubscriptionKeepsInv(w, created.value, sub);
        SessionKeepsInv(WithSubscription(w, created.value, sub), id, s.(status := Complete, subscription := created));
      } else {
        SessionKeepsInv(w, id, s.(status := Complete, subscription := created));
      }
    case Lapse(id) =>
      assert SessionSound(w, w.account.sessions[id]);
      SessionKeepsInv(w, id, w.account.sessions[id].(status := Lapsed));
    case Subscribe(customer, id, status, quantity) =>
      SubscriptionKeepsInv(w, id, Subscription(customer, status, quantity, false));
    case Alter(id, status, quantity, gone) =>
      SubscriptionKeepsInv(w, id, Subscription(w.account.subscriptions[id].customer, status, quantity, gone));
  }

  lemma {:induction false} RunsKeepInv(w: World, run: seq<Action>)
    requires Inv(w) && ValidRun(w, run)
    ensures Inv(After(w, run))
    decreases |run|
  {
    if run != [] {
      StepKeepsInv(w, run[0]);
      RunsKeepInv(Next(w, run[0]), run[1..]);
    }
  }

  /** From no companies at all, no run ever records one subscription, or one customer, twice. */
  lemma NothingIsShared(w: World, run: seq<Action>, c: int, d: int)
    requires w.companies == map[] && w.account.sessions == map[] && w.account.subscriptions == map[]
    requires ValidRun(w, run)
    ensures var v := After(w, run);
      c in v.companies && d in v.companies && c != d ==>
        && (v.companies[c].customer.Some? ==> v.companies[c].customer != v.companies[d].customer)
        && (v.companies[c].subscription.Some? ==> v.companies[c].subscription != v.companies[d].subscription)
  {
    RunsKeepInv(w, run);
    var v := After(w, run);
    if c in v.companies && d in v.companies {
      assert CompanySound(v.account, v.companies[c]) && CompanySound(v.account, v.companies[d]);
    }
  }

  /** Over any run a recorded customer stays the same, and a company that has subscribed stays subscribed. */
  lemma {:induction false} LinksAreKept(w: World, run: seq<Action>, company: int)
    requires ValidRun(w, run) && company in w.companies
    ensures var v := After(w, run);
      && company in v.companies
      && (w.companies[company].customer.Some? ==> v.companies[company].customer == w.companies[company].customer)
      && (w.companies[company].subscription.Some? ==> v.companies[company].subscription.Some?)
    decreases |run|
  {
    if run != [] {
      LinksAreKept(Next(w, run[0]), run[1..], company);
    }
  }

  // ----- Confirming is only ever confirming one's own -----

  /**
   * The service compares customers and never looks at the company a session was opened for; that
   * is enough. A confirmation goes through exactly for a finished session of the caller's own.
   */
  lemma ConfirmsOwnSessionsOnly(w: World, company: int, sessionId: string, faults: set<Op>)
    requires Inv(w) && faults == {} && w.configured
    requires sessionId in w.account.sessions && !Text.IsBlank(sessionId) && company in w.companies
    ensures var s := w.account.sessions[sessionId];
      Complaint(w, company, sessionId, faults).None? <==>
        s.company == company && s.status == Complete && Known(w.account, s.subscription)
  {
    assert SessionSound(w, w.account.sessions[sessionId]);
  }

  /** Whatever fails along the way, nobody else's session is ever recorded. */
  lemma ForeignSessionChangesNothing(w: World, company: int, sessionId: string, faults: set<Op>)
    requires Inv(w) && sessionId in w.account.sessions && w.account.sessions[sessionId].company != company
    ensures AfterConfirm(w, company, sessionId, faults) == w
  {
    assert SessionSound(w, w.account.sessions[sessionId]);
  }
}
