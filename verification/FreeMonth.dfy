/** Who gets a free month: which checkouts carry one, and when a company can still earn another. */
module FreeMonth {
  import opened Base
  import opened Billing
  import Text

  ghost predicate Trial(w: World, id: string, company: int) {
    id in w.account.sessions && w.account.sessions[id].company == company && w.account.sessions[id].trialDays.Some?
  }

  /** A checkout carries the free month exactly when no subscription has yet been recorded. */
  lemma TrialIffNothingRecorded(w: World, o: Order)
    requires Allowed(w, Start(o)) && Opens(w, o)
    ensures Trial(AfterStart(w, o), o.newSession, o.company) <==> w.companies[o.company].subscription.None?
  {
  }

  /** Once a subscription has been recorded, no later checkout of that company carries a free month. */
  lemma {:induction false} NoTrialAfterConfirmation(w: World, run: seq<Action>, company: int, id: string)
    requires ValidRun(w, run) && company in w.companies && w.companies[company].subscription.Some?
    requires Trial(After(w, run), id, company)
    ensures Trial(w, id, company)
    decreases |run|
  {
    if run != [] {
      var v := Next(w, run[0]);
      assert company in v.companies && v.companies[company].subscription.Some?;
      NoTrialAfterConfirmation(v, run[1..], company, id);
      assert Trial(v, id, company);
    }
  }

  // ----- Earning a free month -----

  /** A checkout that carried a free month and brought a subscription about. */
  ghost predicate Earned(w: World, id: string, company: int) {
    Trial(w, id, company) && w.account.sessions[id].subscription.Some?
  }

  ghost predicate EarnsAnother(w: World, run: seq<Action>, id: string, company: int) {
    ValidRun(w, run) && !Earned(w, id, company) && Earned(After(w, run), id, company)
  }

  ghost predicate CanEarnAnother(w: World, company: int) {
    exists run, id :: EarnsAnother(w, run, id, company)
  }

  ghost predicate OpenTrial(w: World, id: string, company: int) {
    Trial(w, id, company) && w.account.sessions[id].status == Open
  }

  /** A subscription is on record, and no checkout that carries a free month is still open. */
  ghost predicate NoMoreTrials(w: World, company: int) {
    && company in w.companies && w.companies[company].subscription.Some?
    && forall id :: !OpenTrial(w, id, company)
  }

  lemma NoMoreTrialsStep(w: World, a: Action, company: int)
    requires NoMoreTrials(w, company) && Allowed(w, a)
    ensures NoMoreTrials(Next(w, a), company)
    ensures forall id :: Earned(Next(w, a), id, company) ==> Earned(w, id, company)
  {
    var v := Next(w, a);
    assert company in v.companies && v.companies[company].subscription.Some?;
    forall id ensures !OpenTrial(v, id, company) && (Earned(v, id, company) ==> Earned(w, id, company)) {
      assert !OpenTrial(w, id, company);
    }
  }

  lemma {:induction false} NoMoreTrialsForGood(w: World, run: seq<Action>, company: int, id: string)
    requires NoMoreTrials(w, company) && ValidRun(w, run)
    ensures Earned(After(w, run), id, company) ==> Earned(w, id, company)
    decreases |run|
  {
    if run != [] {
      NoMoreTrialsStep(w, run[0], company);
      NoMoreTrialsForGood(Next(w, run[0]), run[1..], company, id);
    }
  }

  lemma {:induction false} LengthBound(keys: set<string>) returns (n: nat)
    ensures forall k :: k in keys ==> |k| < n
  {
    if keys == {} {
      n := 0;
    } else {
      var k :| k in keys;
      var m := LengthBound(keys - {k});
      n := if |k| < m then m else |k| + 1;
    }
  }

  /** Ids never run out. */
  lemma NewId(keys: set<string>) returns (id: string)
    ensures id !in keys
  {
    var n := LengthBound(keys);
    id := seq(n, _ => 'x');
  }

  lemma FirstStep(w: World, a: Action, rest: seq<Action>)
    requires Allowed(w, a) && ValidRun(Next(w, a), rest)
    ensures ValidRun(w, [a] + rest) && After(w, [a] + rest) == After(Next(w, a), rest)
  {
    assert ([a] + rest)[1..] == rest;
  }

  /** Finishing an open checkout earns the free month it carries. */
  lemma FinishingEarns(w: World, id: string, company: int) returns (run: seq<Action>)
    requires OpenTrial(w, id, company)
    ensures ValidRun(w, run) && Earned(After(w, run), id, company)
  {
    var sub := NewId(w.account.subscriptions.Keys);
    var a := Finish(id, Some(sub), "trialing", 1);
    FirstStep(w, a, []);
    run := [a] + [];
  }

  /** One seat for a company that has not subscribed, with nothing failing. */
  function Seat(company: int, latest: Option<string>, customer: string, session: string): Order {
    Order(company, 1, "starter", 1, latest, customer, session, {})
  }

  lemma SeatIsSold(w: World, o: Order)
    requires w.configured && o.company in w.companies && w.companies[o.company].subscription.None?
    requires o == Seat(o.company, o.latest, o.newCustomer, o.newSession)
    requires w.companies[o.company].customer.Some? && Known(w.account, o.latest) ==>
      w.account.subscriptions[o.latest.value].status == "canceled"
    ensures Opens(w, o)
  {
    assert InBand(STARTER, 1) && STARTER in PLANS;
    CheckoutSellsTheBand("starter", 1, 1);
    assert Text.Trim("canceled") == "canceled";
  }

  /** The latest subscription can be one that does not stand in the way, if need be by cancelling it. */
  lemma CancelLatest(w: World, company: int) returns (run: seq<Action>, latest: Option<string>)
    requires company in w.companies
    ensures ValidRun(w, run)
    ensures var v := After(w, run);
      && v.configured == w.configured && v.companies == w.companies && v.account.sessions == w.account.sessions
      && v.account.customers == w.account.customers
      && (forall o: Order :: o.company == company && o.latest == latest ==> ListsLatest(v, o))
      && (Known(v.account, latest) ==> v.account.subscriptions[latest.value].status == "canceled")
  {
    run, latest := [], None;
    var c := w.companies[company].customer;
    var subs := w.account.subscriptions;
    if id :| id in subs && c == Some(subs[id].customer) && !subs[id].gone {
      latest := Some(id);
      var a := Alter(id, "canceled", 0, false);
      FirstStep(w, a, []);
      run := [a] + [];
    }
  }

  /** A company without a recorded subscription can open a checkout that carries a free month. */
  lemma StartingOpensTrial(w: World, company: int, latest: Option<string>) returns (o: Order)
    requires w.configured && company in w.companies && w.companies[company].subscription.None?
    requires forall o: Order :: o.company == company && o.latest == latest ==> ListsLatest(w, o)
    requires Known(w.account, latest) ==> w.account.subscriptions[latest.value].status == "canceled"
    ensures Allowed(w, Start(o)) && o.newSession !in w.account.sessions
    ensures OpenTrial(Next(w, Start(o)), o.newSession, company)
  {
    var customer := NewId(w.account.customers);
    var session := NewId(w.account.sessions.Keys);
    o := Seat(company, latest, customer, session);
    SeatIsSold(w, o);
  }

  lemma {:induction false} RunsJoin(w: World, run: seq<Action>, rest: seq<Action>)
    requires ValidRun(w, run) && ValidRun(After(w, run), rest)
    ensures ValidRun(w, run + rest) && After(w, run + rest) == After(After(w, run), rest)
    decreases |run|
  {
    if run == [] {
      assert run + rest == rest;
    } else {
      RunsJoin(Next(w, run[0]), run[1..], rest);
      assert run == [run[0]] + run[1..] && run + rest == [run[0]] + (run[1..] + rest);
      FirstStep(w, run[0], run[1..] + rest);
    }
  }

  lemma UnsubscribedCanEarn(w: World, company: int)
    requires w.configured && company in w.companies && w.companies[company].subscription.None?
    ensures CanEarnAnother(w, company)
  {
    var cancel, latest := CancelLatest(w, company);
    var v := After(w, cancel);
    var o := StartingOpensTrial(v, company, latest);
    var finish := FinishingEarns(Next(v, Start(o)), o.newSession, company);
    FirstStep(v, Start(o), finish);
    RunsJoin(w, cancel, [Start(o)] + finish);
    assert EarnsAnother(w, cancel + ([Start(o)] + finish), o.newSession, company);
  }

  /**
   * A company can earn another free month exactly as long as no subscription of it is recorded or a
   * checkout that carries one is still open: recording a subscription does not close older checkouts.
   */
  lemma AnotherFreeMonthIff(w: World, company: int)
    requires Inv(w) && w.configured && company in w.companies
    ensures CanEarnAnother(w, company) <==>
      w.companies[company].subscription.None? || exists id :: OpenTrial(w, id, company)
  {
    if w.companies[company].subscription.None? {
      UnsubscribedCanEarn(w, company);
    } else if id :| OpenTrial(w, id, company) {
      var run := FinishingEarns(w, id, company);
      assert SessionSound(w, w.account.sessions[id]);
      assert EarnsAnother(w, run, id, company);
    } else {
      forall run, id ensures !EarnsAnother(w, run, id, company) {
        if ValidRun(w, run) {
          NoMoreTrialsForGood(w, run, company, id);
        }
      }
    }
  }

  // ----- Two runs that earn it twice -----

  const NO_COMPANIES := World(true, map[], Account({}, map[], map[]))

  const STARTED := Session(1, "cus", "starter", 1, Some(TRIAL_DAYS), Open, None)

  function Finished(sub: string): Session {
    STARTED.(status := Complete, subscription := Some(sub))
  }

  function Linked(sessions: map<string, Session>, subscriptions: map<string, Subscription>): World {
    World(true, map[1 := UNLINKED.(customer := Some("cus"))], Account({"cus"}, sessions, subscriptions))
  }

  const CANCELED := Subscription("cus", "canceled", 1, false)

  lemma StartOne(w: World, latest: Option<string>, customer: string, session: string)
    requires
      || w == NO_COMPANIES.(companies := map[1 := UNLINKED])
      || w == Linked(w.account.sessions, w.account.subscriptions)
    requires Allowed(w, Start(Seat(1, latest, customer, session)))
    requires latest.Some? ==> w.account.subscriptions == map[latest.value := CANCELED]
    requires customer == "cus" || w != NO_COMPANIES.(companies := map[1 := UNLINKED])
    ensures Next(w, Start(Seat(1, latest, customer, session))) ==
      Linked(w.account.sessions[session := STARTED], w.account.subscriptions)
  {
    SeatIsSold(w, Seat(1, latest, customer, session));
  }

  /** The first subscription is cancelled before it is ever confirmed, and another is bought. */
  lemma AnotherFreeMonth() returns (run: seq<Action>)
    ensures ValidRun(NO_COMPANIES, run)
    ensures var v := After(NO_COMPANIES, run);
      && Earned(v, "s1", 1) && v.account.sessions["s1"].subscription == Some("sub1")
      && Earned(v, "s2", 1) && v.account.sessions["s2"].subscription == Some("sub2")
  {
    var w1 := Next(NO_COMPANIES, Register(1));
    StartOne(w1, None, "cus", "s1");
    var w2 := Linked(map["s1" := STARTED], map[]);
    var w3 := Next(w2, Finish("s1", Some("sub1"), "trialing", 1));
    var w4 := Linked(map["s1" := Finished("sub1")], map["sub1" := CANCELED]);
    assert w4 == Next(w3, Alter("sub1", "canceled", 1, false));
    StartOne(w4, Some("sub1"), "cus2", "s2");
    var w5 := Linked(map["s1" := Finished("sub1"), "s2" := STARTED], map["sub1" := CANCELED]);
    var last := Finish("s2", Some("sub2"), "trialing", 1);

    FirstStep(w5, last, []);
    run := [last] + [];
    FirstStep(w4, Start(Seat(1, Some("sub1"), "cus2", "s2")), run);
    run := [Start(Seat(1, Some("sub1"), "cus2", "s2"))] + run;
    FirstStep(w3, Alter("sub1", "canceled", 1, false), run);
    run := [Alter("sub1", "canceled", 1, false)] + run;
    FirstStep(w2, Finish("s1", Some("sub1"), "trialing", 1), run);
    run := [Finish("s1", Some("sub1"), "trialing", 1)] + run;
    FirstStep(w1, Start(Seat(1, None, "cus", "s1")), run);
    run := [Start(Seat(1, None, "cus", "s1"))] + run;
    FirstStep(NO_COMPANIES, Register(1), run);
    run := [Register(1)] + run;
  }

  /** What is on record once the first of two open checkouts is finished, confirmed and cancelled. */
  function Confirmed(): World {
    World(true, map[1 := Company(Some("cus"), Some("sub1"), Some("starter"), Some(""), Some(1), true)],
      Account({"cus"}, map["s1" := Finished("sub1"), "s2" := STARTED], map["sub1" := CANCELED]))
  }

  lemma ConfirmOne()
    ensures var w := Linked(map["s1" := Finished("sub1"), "s2" := STARTED],
        map["sub1" := Subscription("cus", "trialing", 1, false)]);
      Next(Next(w, Confirm(1, "s1", {})), Alter("sub1", "canceled", 1, false)) == Confirmed()
  {
    var w := Linked(map["s1" := Finished("sub1"), "s2" := STARTED],
      map["sub1" := Subscription("cus", "trialing", 1, false)]);
    assert "s1"[0] == 's' && !Text.IsBlank("s1");
    PlanForSeatsIs(1);
    assert Complaint(w, 1, "s1", {}).None?;
  }

  /** Two checkouts are opened; the first is confirmed and cancelled, and the second still earns a free month. */
  lemma FreeMonthAfterConfirmation() returns (run: seq<Action>)
    ensures ValidRun(NO_COMPANIES, run) && After(NO_COMPANIES, run) == Confirmed()
    ensures Confirmed().companies[1].subscription == Some("sub1")
    ensures Earned(Confirmed(), "s1", 1) && !Earned(Confirmed(), "s2", 1)
    ensures var last := Finish("s2", Some("sub2"), "trialing", 1);
      Allowed(Confirmed(), last) && Earned(Next(Confirmed(), last), "s2", 1)
  {
    var w1 := Next(NO_COMPANIES, Register(1));
    StartOne(w1, None, "cus", "s1");
    var w2 := Linked(map["s1" := STARTED], map[]);
    StartOne(w2, None, "cus2", "s2");
    var w3 := Linked(map["s1" := STARTED, "s2" := STARTED], map[]);
    var w4 := Next(w3, Finish("s1", Some("sub1"), "trialing", 1));
    assert w4.account.sessions == map["s1" := Finished("sub1"), "s2" := STARTED];
    ConfirmOne();
    var w5 := Next(w4, Confirm(1, "s1", {}));

    FirstStep(w5, Alter("sub1", "canceled", 1, false), []);
    run := [Alter("sub1", "canceled", 1, false)] + [];
    FirstStep(w4, Confirm(1, "s1", {}), run);
    run := [Confirm(1, "s1", {})] + run;
    FirstStep(w3, Finish("s1", Some("sub1"), "trialing", 1), run);
    run := [Finish("s1", Some("sub1"), "trialing", 1)] + run;
    FirstStep(w2, Start(Seat(1, None, "cus2", "s2")), run);
    run := [Start(Seat(1, None, "cus2", "s2"))] + run;
    FirstStep(w1, Start(Seat(1, None, "cus", "s1")), run);
    run := [Start(Seat(1, None, "cus", "s1"))] + run;
    FirstStep(NO_COMPANIES, Register(1), run);
    run := [Register(1)] + run;
  }
}
