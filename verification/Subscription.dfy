/** One organisation's subscription: what each request and webhook does to it, and what lazily
    expiring a trial inside a read can and cannot change.  Times are integer ticks of one second. */
module Subscription {
  import opened Wrappers

  datatype PlanId = Free | Starter | Pro | Business | Enterprise | Mssp

  /** `plan in PLANS` */
  predicate KnownPlan(id: string) {
    id in {"free", "starter", "pro", "business", "enterprise", "mssp"}
  }

  /** `get_plan`: an unknown id falls back to the free plan. */
  function GetPlan(id: string): PlanId {
    if id == "starter" then Starter
    else if id == "pro" then Pro
    else if id == "business" then Business
    else if id == "enterprise" then Enterprise
    else if id == "mssp" then Mssp
    else Free
  }

  const DAY_TICKS := 86400
  const TRIAL_TICKS := 14 * DAY_TICKS

  datatype Sub = Sub(
    plan: string,
    status: string,
    trialUsed: bool,
    trialEndsAt: Option<int>,
    customerId: Option<string>,
    externalId: Option<string>,
    periodEnd: Option<int>,
    updatedAt: int)

  /** The row `get_subscription` creates for an org that has none. */
  function DefaultSub(now: int): Sub {
    Sub("free", "active", false, None, None, None, None, now)
  }

  /** The configured external ids of the two self-serve plans; unset is None. */
  datatype Prices = Prices(starter: Option<string>, pro: Option<string>)

  /** Look the id up in `{starter: "starter", pro: "pro"}`, where a later duplicate key wins; default "pro". */
  function PlanForPrice(c: Prices, id: Option<string>): string {
    if id == c.pro then "pro" else if id == c.starter then "starter" else "pro"
  }

  datatype StripeEvent =
    | CheckoutCompleted(plan: Option<string>, customer: Option<string>, subscription: Option<string>)
    | SubscriptionUpdated(price: Option<string>, status: Option<string>, currentPeriodEnd: Option<int>)
    | SubscriptionDeleted
    | InvoicePaid
    | PaymentFailed
    | OtherStripe

  datatype RazorpayEvent =
    | Activated(planId: Option<string>)
    | Halted
    | Cancelled
    | OtherRazorpay

  /** `ShowPlans` and `ShowSubscription` are the two billing pages, which return the stored columns. */
  datatype Event =
    | ReadPlan
    | ShowPlans
    | ShowSubscription
    | StartTrial(plan: string)
    | ManualCheckout(plan: string)
    | Stripe(stripe: StripeEvent)
    | Razorpay(razorpay: RazorpayEvent)

  datatype Outcome =
    | Done
    | PlanIs(limits: PlanId)
    | PlansPage(plan: string, status: string)
    | SubscriptionPage(plan: string, status: string, periodEnd: Option<int>, trialEndsAt: Option<int>,
                       daysLeft: Option<nat>, trialUsed: bool, limits: PlanId)
    | TrialAlreadyUsed
    | AlreadyPaid
    | UnknownPlan
    | NotSelfServe

  datatype Config = Config(stripe: Prices, razorpay: Prices)

  predicate Expired(s: Sub, now: int) {
    s.status == "trialing" && s.trialEndsAt.Some? && s.trialEndsAt.value < now
  }

  /** The plan whose limits apply to the org at `now`. */
  function EffectivePlan(s: Sub, now: int): PlanId {
    if s.status == "active" || (s.status == "trialing" && !Expired(s, now)) then GetPlan(s.plan) else Free
  }

  /** The write hidden in `plan_of`. */
  function AfterRead(s: Sub, now: int): Sub {
    if Expired(s, now) then s.(status := "canceled", plan := "free") else s
  }

  /** Full days to the end of a trial in progress, a started day counting as one. */
  function DaysLeft(s: Sub, now: int): Option<nat> {
    if s.status != "trialing" || s.trialEndsAt.None? then None
    else
      var delta := s.trialEndsAt.value - now;
      var days := delta / DAY_TICKS + if delta % DAY_TICKS != 0 then 1 else 0;
      Some(if days < 0 then 0 else days)
  }

  /** The subscription page reads the plan first, so it shows the row after a due expiry. */
  function SubscriptionPageOf(s: Sub, now: int): Outcome {
    var r := AfterRead(s, now);
    SubscriptionPage(r.plan, r.status, r.periodEnd, r.trialEndsAt, DaysLeft(r, now), r.trialUsed, EffectivePlan(r, now))
  }

  function AfterTrialStart(s: Sub, plan: string, now: int): (Sub, Outcome) {
    if s.trialUsed then (s, TrialAlreadyUsed)
    else if s.status == "active" && s.plan != "free" then (s, AlreadyPaid)
    else (s.(plan := plan, status := "trialing", trialUsed := true, trialEndsAt := Some(now + TRIAL_TICKS)), Done)
  }

  function AfterChange(s: Sub, plan: string, status: string, now: int): (Sub, Outcome) {
    if !KnownPlan(plan) then (s, UnknownPlan)
    else (s.(plan := plan, status := status, updatedAt := now), Done)
  }

  /** `create_checkout` when no gateway is configured: the plan flips at once. */
  function AfterManualCheckout(s: Sub, plan: string, now: int): (Sub, Outcome) {
    if !KnownPlan(plan) || plan == "free" || plan == "enterprise" then (s, NotSelfServe)
    else AfterChange(s, plan, "active", now)
  }

  function OrElse(a: Option<string>, b: Option<string>): Option<string> {
    if a.Some? && a.value != "" then a else b
  }

  function AfterStripe(c: Prices, s: Sub, e: StripeEvent, now: int): (Sub, Outcome) {
    match e
    case CheckoutCompleted(plan, customer, subscription) =>
      var p := if plan.Some? then plan.value else "pro";
      var linked := s.(customerId := OrElse(customer, s.customerId), externalId := subscription);
      if KnownPlan(p) then AfterChange(linked, p, "active", now) else (s, UnknownPlan)
    case SubscriptionUpdated(price, status, end) =>
      var st := if status.Some? then status.value else "active";
      (s.(plan := PlanForPrice(c, price),
          status := if st == "active" || st == "trialing" then "active" else st,
          periodEnd := if end == Some(0) then None else end), Done)
    case SubscriptionDeleted => AfterChange(s, "free", "canceled", now)
    case InvoicePaid => (s.(status := "active"), Done)
    case PaymentFailed => (s.(status := "past_due"), Done)
    case OtherStripe => (s, Done)
  }

  function AfterRazorpay(c: Prices, s: Sub, e: RazorpayEvent, now: int): (Sub, Outcome) {
    match e
    case Activated(planId) => AfterChange(s, PlanForPrice(c, planId), "active", now)
    case Halted => (s.(status := "past_due"), Done)
    case Cancelled => AfterChange(s, "free", "canceled", now)
    case OtherRazorpay => (s, Done)
  }

  function Step(c: Config, s: Sub, e: Event, now: int): (Sub, Outcome) {
    match e
    case ReadPlan => (AfterRead(s, now), PlanIs(EffectivePlan(s, now)))
    case ShowPlans => (s, PlansPage(s.plan, s.status))
    case ShowSubscription => (AfterRead(s, now), SubscriptionPageOf(s, now))
    case StartTrial(plan) => AfterTrialStart(s, plan, now)
    case ManualCheckout(plan) => AfterManualCheckout(s, plan, now)
    case Stripe(ev) => AfterStripe(c.stripe, s, ev, now)
    case Razorpay(ev) => AfterRazorpay(c.razorpay, s, ev, now)
  }

  // ----- traces -------------------------------------------------------------------------

  /** A timed event; an `extra` one is a plan read that the trace could do without. */
  datatype Timed = Timed(event: Event, now: int, extra: bool)

  /** The clock never goes back, and only plan reads are extra. */
  ghost predicate TimedFrom(tr: seq<Timed>, clock: int) {
    tr == [] || (clock <= tr[0].now && (tr[0].extra ==> tr[0].event.ReadPlan?) && TimedFrom(tr[1..], tr[0].now))
  }

  /** The clock after the trace. */
  function End(tr: seq<Timed>, clock: int): int {
    if tr == [] then clock else End(tr[1..], tr[0].now)
  }

  predicate NoInvoicePaid(tr: seq<Timed>) {
    forall i | 0 <= i < |tr| :: tr[i].event != Stripe(InvoicePaid)
  }

  function Run(c: Config, s: Sub, tr: seq<Timed>): Sub
    decreases |tr|
  {
    if tr == [] then s else Run(c, Step(c, s, tr[0].event, tr[0].now).0, tr[1..])
  }

  /** What the callers of the non-extra events see. */
  function Visible(c: Config, s: Sub, tr: seq<Timed>): seq<Outcome>
    decreases |tr|
  {
    if tr == [] then []
    else
      var (s', o) := Step(c, s, tr[0].event, tr[0].now);
      (if tr[0].extra then [] else [o]) + Visible(c, s', tr[1..])
  }

  /** What is left of an outcome without the columns that a page shows of a plan that no longer counts. */
  function Blur(o: Outcome): Outcome {
    match o
    case PlansPage(_, _) => PlansPage("", "")
    case SubscriptionPage(_, _, _, _, _, _, _) => o.(plan := "")
    case _ => o
  }

  function Blurred(os: seq<Outcome>): seq<Outcome> {
    seq(|os|, i requires 0 <= i < |os| => Blur(os[i]))
  }

  /** The trace without its extra reads. */
  function Base(tr: seq<Timed>): seq<Timed> {
    if tr == [] then []
    else if tr[0].extra then Base(tr[1..])
    else [tr[0]] + Base(tr[1..])
  }

  // ----- trials -------------------------------------------------------------------------

  /** A trial in progress is marked as used and has an end. */
  predicate Inv(s: Sub) {
    s.status == "trialing" ==> s.trialUsed && s.trialEndsAt.Some?
  }

  function TrialsEntered(c: Config, s: Sub, tr: seq<Timed>): nat
    decreases |tr|
  {
    if tr == [] then 0
    else
      var s' := Step(c, s, tr[0].event, tr[0].now).0;
      (if s.status != "trialing" && s'.status == "trialing" then 1 else 0) + TrialsEntered(c, s', tr[1..])
  }

  /** Over every run: at most one trial is ever entered, none once one was used; a used trial stays used;
      a trial in progress is used and has an end; and a paid effective plan means an active status or a
      trial that has not ended. */
  lemma {:induction false} OneTrialPerOrg(c: Config, s: Sub, tr: seq<Timed>, now: int)
    requires Inv(s)
    ensures TrialsEntered(c, s, tr) <= if s.trialUsed then 0 else 1
    ensures s.trialUsed || TrialsEntered(c, s, tr) == 1 ==> Run(c, s, tr).trialUsed
    ensures Inv(Run(c, s, tr))
    ensures var f := Run(c, s, tr);
            EffectivePlan(f, now) != Free ==>
              f.status == "active" || (f.status == "trialing" && f.trialEndsAt.Some? && now <= f.trialEndsAt.value)
    decreases |tr|
  {
    if tr != [] {
      OneTrialPerOrg(c, Step(c, s, tr[0].event, tr[0].now).0, tr[1..], now);
    }
  }

  // ----- what a plan read answers ----------------------------------------------------------

  /** The ids of the plan table. */
  function PlanName(p: PlanId): string {
    match p
    case Free => "free"
    case Starter => "starter"
    case Pro => "pro"
    case Business => "business"
    case Enterprise => "enterprise"
    case Mssp => "mssp"
  }

  /** Each plan is found under its own id, and every other id means the free plan. */
  lemma PlanLookup(id: string, p: PlanId)
    ensures GetPlan(id) == p && p != Free ==> id == PlanName(p)
    ensures GetPlan(PlanName(p)) == p
    ensures KnownPlan(id) <==> id == PlanName(GetPlan(id))
  {
  }

  /** After any run, a read answers the stored plan for an active row and for a trial that has no end or has
      not passed it, and the free plan in every other case. */
  lemma ReadAnswers(c: Config, s: Sub, tr: seq<Timed>, now: int)
    ensures var f := Run(c, s, tr);
            var counts := f.status == "active" ||
                          (f.status == "trialing" && (f.trialEndsAt.None? || now <= f.trialEndsAt.value));
            Step(c, f, ReadPlan, now).1 == PlanIs(if counts then GetPlan(f.plan) else Free)
  {
  }

  /** Events that do not write the row of an org in a trial: reads, pages, further trial requests, checkouts of
      plans that are not for sale, and webhooks of other kinds. */
  predicate Idle(e: Event) {
    match e
    case ReadPlan => true
    case ShowPlans => true
    case ShowSubscription => true
    case StartTrial(_) => true
    case ManualCheckout(plan) => plan !in {"starter", "pro", "business", "mssp"}
    case Stripe(ev) => ev == OtherStripe
    case Razorpay(ev) => ev == OtherRazorpay
  }

  lemma {:induction false} TrialLasts(c: Config, s: Sub, tr: seq<Timed>, clock: int, later: int)
    requires s.status == "trialing" && s.trialUsed && s.trialEndsAt.Some? && TimedFrom(tr, clock)
    requires forall i | 0 <= i < |tr| :: Idle(tr[i].event)
    requires End(tr, clock) <= later
    ensures later <= s.trialEndsAt.value ==> Run(c, s, tr) == s
    ensures later > s.trialEndsAt.value ==> Run(c, s, tr) in {s, s.(status := "canceled", plan := "free")}
    decreases |tr|
  {
    if tr != [] {
      var t, rest := tr[0], tr[1..];
      EndIsLater(rest, t.now);
      assert forall i | 0 <= i < |rest| :: rest[i] == tr[i + 1];
      if s.trialEndsAt.value < t.now && (t.event.ReadPlan? || t.event.ShowSubscription?) {
        CanceledLasts(c, AfterRead(s, t.now), rest);
      } else {
        TrialLasts(c, s, rest, t.now, later);
      }
    }
  }

  lemma {:induction false} EndIsLater(tr: seq<Timed>, clock: int)
    requires TimedFrom(tr, clock)
    ensures clock <= End(tr, clock)
    decreases |tr|
  {
    if tr != [] {
      EndIsLater(tr[1..], tr[0].now);
    }
  }

  lemma {:induction false} CanceledLasts(c: Config, s: Sub, tr: seq<Timed>)
    requires s.trialUsed && s.status == "canceled"
    requires forall i | 0 <= i < |tr| :: Idle(tr[i].event)
    ensures Run(c, s, tr) == s
    decreases |tr|
  {
    if tr != [] {
      assert forall i | 0 <= i < |tr[1..]| :: tr[1..][i] == tr[i + 1];
      CanceledLasts(c, s, tr[1..]);
    }
  }

  /** A trial that starts entitles to its plan for 14 days, and to nothing after them, whatever reads, pages
      and refused requests come in between. */
  lemma TrialEntitles(c: Config, s: Sub, plan: string, start: int, tr: seq<Timed>, later: int)
    requires Step(c, s, StartTrial(plan), start).1 == Done && TimedFrom(tr, start)
    requires forall i | 0 <= i < |tr| :: Idle(tr[i].event)
    requires End(tr, start) <= later
    ensures var f := Run(c, Step(c, s, StartTrial(plan), start).0, tr);
            Step(c, f, ReadPlan, later).1 == PlanIs(if later <= start + 14 * 86400 then GetPlan(plan) else Free)
  {
    TrialLasts(c, Step(c, s, StartTrial(plan), start).0, tr, start, later);
  }

  /** The page rounds the time left up to whole days. */
  lemma DaysLeftRoundsUp(s: Sub, now: int)
    requires s.status == "trialing" && s.trialEndsAt.Some? && now <= s.trialEndsAt.value
    ensures var d := DaysLeft(s, now);
            d.Some? && 86400 * (d.value - 1) < s.trialEndsAt.value - now <= 86400 * d.value
  {
  }

  // ----- lazy expiry ------------------------------------------------------------------------

  /** `b` has been read more often than `a`: they differ only in that `a` may still carry a plan that no
      longer counts. */
  ghost predicate Hides(a: Sub, b: Sub, now: int) {
    && b == a.(plan := b.plan, status := b.status)
    && (a == b || (
          && a.trialUsed
          && GetPlan(b.plan) == Free
          && if Expired(a, now) then b.status == "canceled"
             else a.status == b.status && a.status != "trialing" && (a.status == "active" ==> GetPlan(a.plan) == Free)))
  }

  lemma ReadStaysHidden(a: Sub, b: Sub, now: int)
    requires Inv(a) && Hides(a, b, now)
    ensures Hides(a, AfterRead(b, now), now)
  {
  }

  lemma HidesLater(a: Sub, b: Sub, now: int, later: int)
    requires Inv(a) && Hides(a, b, now) && now <= later
    ensures Hides(a, b, later)
  {
  }

  lemma StepStaysHidden(c: Config, a: Sub, b: Sub, e: Event, now: int)
    requires Inv(a) && Hides(a, b, now) && e != Stripe(InvoicePaid)
    ensures Blur(Step(c, a, e, now).1) == Blur(Step(c, b, e, now).1)
    ensures Hides(Step(c, a, e, now).0, Step(c, b, e, now).0, now)
    ensures Inv(Step(c, a, e, now).0)
  {
    match e
    case Stripe(ev) => StripeStaysHidden(c.stripe, a, b, ev, now);
    case _ =>
  }

  lemma StripeStaysHidden(c: Prices, a: Sub, b: Sub, e: StripeEvent, now: int)
    requires Inv(a) && Hides(a, b, now) && e != InvoicePaid
    ensures AfterStripe(c, a, e, now).1 == AfterStripe(c, b, e, now).1
    ensures Hides(AfterStripe(c, a, e, now).0, AfterStripe(c, b, e, now).0, now)
    ensures Inv(AfterStripe(c, a, e, now).0)
  {
  }

  lemma BlurredMore(o: Outcome, o': Outcome, os: seq<Outcome>, os': seq<Outcome>)
    requires Blur(o) == Blur(o') && Blurred(os) == Blurred(os')
    ensures Blurred([o] + os) == Blurred([o'] + os')
    ensures Blurred([] + os) == Blurred([] + os')
  {
    assert Blurred([o] + os) == [Blur(o)] + Blurred(os);
    assert Blurred([o'] + os') == [Blur(o')] + Blurred(os');
    assert [] + os == os && [] + os' == os';
  }

  /** The simulation: a run with extra reads shows its callers what the run without them shows. */
  lemma {:induction false} ExtraReadsHidden(c: Config, a: Sub, b: Sub, tr: seq<Timed>, clock: int)
    requires Inv(a) && Hides(a, b, clock) && TimedFrom(tr, clock) && NoInvoicePaid(tr)
    ensures Blurred(Visible(c, b, tr)) == Blurred(Visible(c, a, Base(tr)))
    ensures forall later | later >= End(tr, clock) ::
              EffectivePlan(Run(c, b, tr), later) == EffectivePlan(Run(c, a, Base(tr)), later)
    decreases |tr|
  {
    if tr == [] {
      forall later | later >= clock ensures EffectivePlan(b, later) == EffectivePlan(a, later) {
        HidesLater(a, b, clock, later);
      }
    } else {
      var t, rest := tr[0], tr[1..];
      HidesLater(a, b, clock, t.now);
      assert forall i | 0 <= i < |rest| :: rest[i] == tr[i + 1];
      if t.extra {
        ReadStaysHidden(a, b, t.now);
        ExtraReadsHidden(c, a, AfterRead(b, t.now), rest, t.now);
        assert Visible(c, b, tr) == Visible(c, AfterRead(b, t.now), rest);
      } else {
        var (a', o) := Step(c, a, t.event, t.now);
        var (b', o') := Step(c, b, t.event, t.now);
        StepStaysHidden(c, a, b, t.event, t.now);
        ExtraReadsHidden(c, a', b', rest, t.now);
        assert ([t] + Base(rest))[1..] == Base(rest);
        BlurredMore(o, o', Visible(c, a', Base(rest)), Visible(c, b', rest));
      }
    }
  }

  /** Without `invoice.paid`, extra plan reads inserted anywhere change no decision, no limit and no later
      effective plan; of what the pages show they change at most the stored plan and, on the plans page,
      the stored status. */
  lemma ReadsAreInvisible(c: Config, s: Sub, tr: seq<Timed>, clock: int, later: int)
    requires Inv(s) && TimedFrom(tr, clock) && NoInvoicePaid(tr)
    requires later >= End(tr, clock)
    ensures Blurred(Visible(c, s, tr)) == Blurred(Visible(c, s, Base(tr)))
    ensures EffectivePlan(Run(c, s, tr), later) == EffectivePlan(Run(c, s, Base(tr)), later)
  {
    ExtraReadsHidden(c, s, s, tr, clock);
  }

  /** The reference semantics: a trial expires by itself, before anything else happens. */
  function EagerVisible(c: Config, s: Sub, tr: seq<Timed>): seq<Outcome>
    decreases |tr|
  {
    if tr == [] then []
    else
      var (s', o) := Step(c, AfterRead(s, tr[0].now), tr[0].event, tr[0].now);
      (if tr[0].extra then [] else [o]) + EagerVisible(c, s', tr[1..])
  }

  lemma EagerStepHidden(c: Config, a: Sub, b: Sub, e: Event, clock: int, now: int)
    requires Inv(a) && Hides(a, b, clock) && clock <= now && e != Stripe(InvoicePaid)
    ensures var (a', o) := Step(c, a, e, now);
            var (b', o') := Step(c, AfterRead(b, now), e, now);
            Inv(a') && Hides(a', b', now) && Blur(o) == Blur(o')
  {
    HidesLater(a, b, clock, now);
    ReadStaysHidden(a, b, now);
    StepStaysHidden(c, a, AfterRead(b, now), e, now);
  }

  /** Up to the same columns, lazy expiry is observationally equal to eager expiry. */
  lemma {:induction false} LazyExpiryIsEager(c: Config, a: Sub, b: Sub, tr: seq<Timed>, clock: int)
    requires Inv(a) && Hides(a, b, clock) && TimedFrom(tr, clock) && NoInvoicePaid(tr)
    ensures Blurred(Visible(c, a, tr)) == Blurred(EagerVisible(c, b, tr))
    decreases |tr|
  {
    if tr != [] {
      var t, rest := tr[0], tr[1..];
      var (a', o) := Step(c, a, t.event, t.now);
      var (b', o') := Step(c, AfterRead(b, t.now), t.event, t.now);
      EagerStepHidden(c, a, b, t.event, clock, t.now);
      assert forall i | 0 <= i < |rest| :: rest[i] == tr[i + 1];
      LazyExpiryIsEager(c, a', b', rest, t.now);
      BlurredMore(o, o', Visible(c, a', rest), EagerVisible(c, b', rest));
    }
  }

  // ----- exactly when expiry is invisible ------------------------------------------------------

  /** Which events a future may hold: no billing page, the subscription page too, or both pages. */
  datatype Audience = NoPage | SubscriptionOnly | BothPages

  predicate Allows(who: Audience, e: Event) {
    (e.ShowPlans? ==> who.BothPages?) && (e.ShowSubscription? ==> !who.NoPage?)
  }

  predicate Within(who: Audience, tr: seq<Timed>) {
    forall i | 0 <= i < |tr| :: Allows(who, tr[i].event)
  }

  /** The plans whose trial may expire without this audience ever noticing. */
  predicate Unnoticed(who: Audience, plan: string) {
    match who
    case NoPage => GetPlan(plan) == Free
    case SubscriptionOnly => plan == "free"
    case BothPages => false
  }

  /** `b` is `a` but for an expiry of such a trial. */
  ghost predicate Alike(who: Audience, a: Sub, b: Sub, now: int) {
    && b == a.(plan := b.plan, status := b.status)
    && (a == b || (
          && a.trialUsed
          && Unnoticed(who, a.plan) && Unnoticed(who, b.plan)
          && if Expired(a, now) then b.status == "canceled" else a.status == b.status && a.status != "trialing"))
  }

  lemma StepStaysAlike(c: Config, who: Audience, a: Sub, b: Sub, e: Event, now: int)
    requires Inv(a) && Alike(who, a, b, now) && Allows(who, e)
    ensures Step(c, a, e, now).1 == Step(c, b, e, now).1
    ensures Alike(who, Step(c, a, e, now).0, Step(c, b, e, now).0, now)
    ensures Inv(Step(c, a, e, now).0)
  {
    match e
    case Stripe(ev) => StripeStaysAlike(c.stripe, who, a, b, ev, now);
    case _ =>
  }

  lemma StripeStaysAlike(c: Prices, who: Audience, a: Sub, b: Sub, e: StripeEvent, now: int)
    requires Inv(a) && Alike(who, a, b, now)
    ensures AfterStripe(c, a, e, now).1 == AfterStripe(c, b, e, now).1
    ensures Alike(who, AfterStripe(c, a, e, now).0, AfterStripe(c, b, e, now).0, now)
    ensures Inv(AfterStripe(c, a, e, now).0)
  {
  }

  lemma {:induction false} AlikeFutures(c: Config, who: Audience, a: Sub, b: Sub, tr: seq<Timed>, clock: int)
    requires Inv(a) && Alike(who, a, b, clock) && TimedFrom(tr, clock) && Within(who, tr)
    ensures Visible(c, a, tr) == Visible(c, b, tr)
    decreases |tr|
  {
    if tr != [] {
      var t, rest := tr[0], tr[1..];
      StepStaysAlike(c, who, a, b, t.event, t.now);
      assert forall i | 0 <= i < |rest| :: rest[i] == tr[i + 1];
      AlikeFutures(c, who, Step(c, a, t.event, t.now).0, Step(c, b, t.event, t.now).0, rest, t.now);
    }
  }

  /** A future that tells an expired trial of another plan from one whose expiry was written. */
  function Revealing(who: Audience, t: int): (tr: seq<Timed>)
    ensures TimedFrom(tr, t) && Within(who, tr) && tr != [] && tr[0].now == t
  {
    match who
    case NoPage => Two(Stripe(InvoicePaid), ReadPlan, t)
    case SubscriptionOnly => Two(Stripe(PaymentFailed), ShowSubscription, t)
    case BothPages => Two(ShowPlans, ShowPlans, t)
  }

  /** Two events at one instant. */
  function Two(e: Event, f: Event, t: int): (tr: seq<Timed>)
    ensures TimedFrom(tr, t) && |tr| == 2 && tr[0] == Timed(e, t, false) && tr[1] == Timed(f, t, false)
  {
    var tr := [Timed(e, t, false), Timed(f, t, false)];
    assert tr[1..] == [Timed(f, t, false)];
    assert TimedFrom(tr[1..], t);
    tr
  }

  lemma TwoVisible(c: Config, s: Sub, e: Event, f: Event, t: int)
    ensures var (s', o) := Step(c, s, e, t); Visible(c, s, Two(e, f, t)) == [o, Step(c, s', f, t).1]
  {
    var tr := Two(e, f, t);
    var (s', o) := Step(c, s, e, t);
    assert tr[1..] == [tr[1]] && tr[1..][1..] == [];
    assert Visible(c, s', tr[1..]) == [Step(c, s', f, t).1];
  }

  lemma ExpiryIsRevealed(c: Config, who: Audience, s: Sub, t: int)
    requires Expired(s, t) && !Unnoticed(who, s.plan)
    ensures Visible(c, s, Revealing(who, t)) != Visible(c, AfterRead(s, t), Revealing(who, t))
  {
    var r := AfterRead(s, t);
    match who
    case NoPage =>
      TwoVisible(c, s, Stripe(InvoicePaid), ReadPlan, t);
      TwoVisible(c, r, Stripe(InvoicePaid), ReadPlan, t);
      assert Visible(c, s, Revealing(who, t))[1] != Visible(c, r, Revealing(who, t))[1];
    case SubscriptionOnly =>
      TwoVisible(c, s, Stripe(PaymentFailed), ShowSubscription, t);
      TwoVisible(c, r, Stripe(PaymentFailed), ShowSubscription, t);
      assert Visible(c, s, Revealing(who, t))[1] != Visible(c, r, Revealing(who, t))[1];
    case BothPages =>
      TwoVisible(c, s, ShowPlans, ShowPlans, t);
      TwoVisible(c, r, ShowPlans, ShowPlans, t);
      assert Visible(c, s, Revealing(who, t))[0] != Visible(c, r, Revealing(who, t))[0];
  }

  /** With every event in play, a plan read is invisible to all futures exactly when it does not expire a
      trial of a plan the audience tells from a canceled free one: a paid plan if no page is looked at, any
      plan but "free" if the subscription page is, and every plan if the plans page is. */
  lemma ReadInvisibleIff(c: Config, who: Audience, s: Sub, now: int)
    requires Inv(s)
    ensures (forall tr | TimedFrom(tr, now) && Within(who, tr) ::
               Visible(c, s, tr) == Visible(c, AfterRead(s, now), tr)) <==>
            !(Expired(s, now) && !Unnoticed(who, s.plan))
  {
    if Expired(s, now) && !Unnoticed(who, s.plan) {
      ExpiryIsRevealed(c, who, s, now);
    } else {
      forall tr | TimedFrom(tr, now) && Within(who, tr)
        ensures Visible(c, s, tr) == Visible(c, AfterRead(s, now), tr)
      {
        AlikeFutures(c, who, s, AfterRead(s, now), tr, now);
      }
    }
  }

  lemma NoTrialEntered(c: Config, s: Sub, e: Event, now: int)
    requires s.trialUsed
    ensures var s' := Step(c, s, e, now).0; s'.trialUsed && (s'.status == "trialing" ==> s' == s)
  {
  }

  lemma {:induction false} AlikeEager(c: Config, who: Audience, a: Sub, b: Sub, tr: seq<Timed>, clock: int)
    requires Inv(a) && Alike(who, a, b, clock) && a.trialUsed && (a.status == "trialing" ==> Unnoticed(who, a.plan))
    requires TimedFrom(tr, clock) && Within(who, tr)
    ensures Visible(c, a, tr) == EagerVisible(c, b, tr)
    decreases |tr|
  {
    if tr != [] {
      var t, rest := tr[0], tr[1..];
      var r := AfterRead(b, t.now);
      assert Alike(who, a, r, t.now);
      StepStaysAlike(c, who, a, r, t.event, t.now);
      assert forall i | 0 <= i < |rest| :: rest[i] == tr[i + 1];
      NoTrialEntered(c, a, t.event, t.now);
      AlikeEager(c, who, Step(c, a, t.event, t.now).0, Step(c, r, t.event, t.now).0, rest, t.now);
    }
  }

  /** Once a trial was used and is over, there is nothing left to expire. */
  lemma {:induction false} NothingToExpire(c: Config, s: Sub, tr: seq<Timed>)
    requires s.trialUsed && s.status != "trialing"
    ensures EagerVisible(c, s, tr) == Visible(c, s, tr)
    decreases |tr|
  {
    if tr != [] {
      NothingToExpire(c, Step(c, s, tr[0].event, tr[0].now).0, tr[1..]);
    }
  }

  lemma EagerReads(c: Config, s: Sub, tr: seq<Timed>)
    requires tr != [] && s.trialUsed && Expired(s, tr[0].now)
    ensures EagerVisible(c, s, tr) == Visible(c, AfterRead(s, tr[0].now), tr)
  {
    var r := AfterRead(s, tr[0].now);
    NothingToExpire(c, r, tr);
    assert AfterRead(r, tr[0].now) == r;
  }

  /** A future with a trial of the Pro plan, for an org that has not used its trial. */
  lemma TrialToCome(c: Config, who: Audience, s: Sub, now: int) returns (tr: seq<Timed>)
    requires Inv(s) && !s.trialUsed
    ensures TimedFrom(tr, now) && Within(who, tr) && Visible(c, s, tr) != EagerVisible(c, s, tr)
  {
    var t := now + TRIAL_TICKS + 1;
    var start := Two(Stripe(SubscriptionDeleted), StartTrial("pro"), now);
    var end := Revealing(who, t);
    tr := start + end;
    assert tr[1..] == start[1..] + end && tr[1..][1..] == end;
    assert TimedFrom(tr[1..], now);
    var s1 := Step(c, s, Stripe(SubscriptionDeleted), now).0;
    var s2 := Step(c, s1, StartTrial("pro"), now).0;
    ExpiryIsRevealed(c, who, s2, t);
    EagerReads(c, s2, end);
    assert Visible(c, s, tr) == [Done] + ([Done] + Visible(c, s2, end));
    assert EagerVisible(c, s, tr) == [Done] + ([Done] + EagerVisible(c, s2, end));
    assert Visible(c, s, tr)[2..] == Visible(c, s2, end);
    assert EagerVisible(c, s, tr)[2..] == EagerVisible(c, s2, end);
  }

  /** Expiring trials lazily shows an audience in every future what expiring them on time would show exactly
      when no trial can still start and none is in progress whose end the audience can notice. */
  lemma LazyIsEagerIff(c: Config, who: Audience, s: Sub, now: int)
    requires Inv(s)
    ensures (forall tr | TimedFrom(tr, now) && Within(who, tr) :: Visible(c, s, tr) == EagerVisible(c, s, tr)) <==>
            s.trialUsed && (s.status == "trialing" ==> Unnoticed(who, s.plan))
  {
    if !s.trialUsed {
      var tr := TrialToCome(c, who, s, now);
    } else if s.status == "trialing" && !Unnoticed(who, s.plan) {
      var end := s.trialEndsAt.value;
      var t := if now <= end then end + 1 else now;
      var tr := Revealing(who, t);
      ExpiryIsRevealed(c, who, s, t);
      EagerReads(c, s, tr);
      assert TimedFrom(tr, now);
    } else {
      forall tr | TimedFrom(tr, now) && Within(who, tr) ensures Visible(c, s, tr) == EagerVisible(c, s, tr) {
        AlikeEager(c, who, s, s, tr, now);
      }
    }
  }
}
