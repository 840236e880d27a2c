/** The subscription table: the requests and gateway webhooks that update its rows in place. */
module Billing {
  import opened Subscription
  import opened Seqs
  import opened Wrappers

  type Table = map<string, Sub>

  function RowOf(subs: Table, org: string, now: int): Sub {
    if org in subs then subs[org] else DefaultSub(now)
  }

  /** The parts of a Stripe event object that the handler looks at. */
  datatype StripeObject = StripeObject(
    metadataOrg: Option<string>,
    clientReference: Option<string>,
    plan: Option<string>,
    customer: Option<string>,
    subscription: Option<string>,
    price: Option<string>,
    status: Option<string>,
    currentPeriodEnd: Option<int>)

  /** The org an event is about: the metadata's, else the client reference; empty means none. */
  function OrgOf(o: StripeObject): Option<string> {
    var org := OrElse(o.metadataOrg, o.clientReference);
    if org == Some("") then None else org
  }

  function StripeEventOf(etype: string, o: StripeObject): StripeEvent {
    if etype == "checkout.session.completed" then CheckoutCompleted(o.plan, o.customer, o.subscription)
    else if etype == "customer.subscription.updated" then SubscriptionUpdated(o.price, o.status, o.currentPeriodEnd)
    else if etype == "customer.subscription.deleted" then SubscriptionDeleted
    else if etype == "invoice.paid" then InvoicePaid
    else if etype == "invoice.payment_failed" then PaymentFailed
    else OtherStripe
  }

  function RazorpayEventOf(etype: string, planId: Option<string>): RazorpayEvent {
    if etype in {"subscription.activated", "subscription.charged", "subscription.resumed"} then Activated(planId)
    else if etype in {"subscription.halted", "subscription.pending"} then Halted
    else if etype in {"subscription.cancelled", "subscription.completed"} then Cancelled
    else OtherRazorpay
  }

  /** A verified webhook, as it concerns the table. */
  datatype Delivery =
    | FromStripe(org: Option<string>, stripe: StripeEvent, now: int)
    | FromRazorpay(org: Option<string>, razorpay: RazorpayEvent, now: int)

  predicate Applies(d: Delivery) {
    d.org.Some? && if d.FromStripe? then d.stripe != OtherStripe else d.razorpay != OtherRazorpay
  }

  function AfterDelivery(c: Config, s: Sub, d: Delivery): (Sub, Outcome) {
    match d
    case FromStripe(_, e, now) => AfterStripe(c.stripe, s, e, now)
    case FromRazorpay(_, e, now) => AfterRazorpay(c.razorpay, s, e, now)
  }

  /** The table after one delivery: only the row of the event's own org may change. */
  function Deliver(c: Config, subs: Table, d: Delivery): Table {
    if Applies(d) then subs[d.org.value := AfterDelivery(c, RowOf(subs, d.org.value, d.now), d).0] else subs
  }

  /** A webhook as it arrives, with the verdict on its signature. */
  datatype Webhook =
    | StripeHook(signatureOk: bool, etype: string, obj: StripeObject, now: int)
    | RazorpayHook(signatureOk: bool, etype: string, notesOrg: Option<string>, planId: Option<string>, now: int)

  function Decoded(w: Webhook): Delivery {
    match w
    case StripeHook(_, etype, obj, now) => FromStripe(OrgOf(obj), StripeEventOf(etype, obj), now)
    case RazorpayHook(_, etype, notesOrg, planId, now) =>
      FromRazorpay(if notesOrg == Some("") then None else notesOrg, RazorpayEventOf(etype, planId), now)
  }

  function Received(c: Config, subs: Table, w: Webhook): Table {
    if w.signatureOk then Deliver(c, subs, Decoded(w)) else subs
  }

  class Gateway {
    const config: Config
    var subs: Table

    constructor (c: Config)
      ensures config == c && subs == map[]
    {
      config, subs := c, map[];
    }

    /** Read the org's row, creating the default one when there is none. */
    method GetSubscription(org: string, now: int) returns (sub: Sub)
      modifies this
      ensures sub == RowOf(old(subs), org, now) && subs == old(subs)[org := sub]
      ensures sub == if org in old(subs) then old(subs)[org]
                     else Sub("free", "active", false, None, None, None, None, now)
    {
      if org !in subs {
        subs := subs[org := Sub("free", "active", false, None, None, None, None, now)];
      }
      sub := subs[org];
    }

    /** Resolve the plan; an expired trial is written back as canceled and free. */
    method PlanOf(org: string, now: int) returns (plan: PlanId)
      modifies this
      ensures var row := RowOf(old(subs), org, now);
              plan == EffectivePlan(row, now) && subs == old(subs)[org := AfterRead(row, now)]
      ensures var row := RowOf(old(subs), org, now);
              var counts := row.status == "active" ||
                            (row.status == "trialing" && (row.trialEndsAt.None? || now <= row.trialEndsAt.value));
              plan == if counts then GetPlan(row.plan) else Free
      ensures var row := RowOf(old(subs), org, now);
              var lapsed := row.status == "trialing" && row.trialEndsAt.Some? && row.trialEndsAt.value < now;
              subs == old(subs)[org := if lapsed then row.(status := "canceled", plan := "free") else row]
    {
      var sub := GetSubscription(org, now);
      if sub.status == "trialing" {
        if sub.trialEndsAt.Some? && sub.trialEndsAt.value < now {
          subs := subs[org := sub.(status := "canceled", plan := "free")];
          return GetPlan("free");
        }
        return GetPlan(sub.plan);
      }
      if sub.status != "active" {
        return GetPlan("free");
      }
      return GetPlan(sub.plan);
    }

    /** GET /billing/plans: the stored columns as they are. */
    method ShowPlans(org: string, now: int) returns (o: Outcome)
      modifies this
      ensures var (row, outcome) := Step(config, RowOf(old(subs), org, now), Event.ShowPlans, now);
              o == outcome && subs == old(subs)[org := row]
      ensures o == PlansPage(subs[org].plan, subs[org].status) && subs[org] == RowOf(old(subs), org, now)
    {
      var sub := GetSubscription(org, now);
      return PlansPage(sub.plan, sub.status);
    }

    /** GET /billing/subscription: resolve the plan, then show the row; the usage part resolves it again. */
    method ShowSubscription(org: string, now: int) returns (o: Outcome)
      modifies this
      ensures var (row, outcome) := Step(config, RowOf(old(subs), org, now), Event.ShowSubscription, now);
              o == outcome && subs == old(subs)[org := row]
      ensures org in subs && o.SubscriptionPage? && o.plan == subs[org].plan && o.status == subs[org].status
      ensures o.periodEnd == subs[org].periodEnd && o.trialEndsAt == subs[org].trialEndsAt
      ensures o.trialUsed == subs[org].trialUsed && o.daysLeft == DaysLeft(subs[org], now)
      ensures o.limits == if o.status in {"active", "trialing"} then GetPlan(o.plan) else Free
    {
      var _ := PlanOf(org, now);
      var sub := GetSubscription(org, now);
      var limits := PlanOf(org, now);
      return SubscriptionPage(sub.plan, sub.status, sub.periodEnd, sub.trialEndsAt, DaysLeft(sub, now), sub.trialUsed,
                              limits);
    }

    method StartTrial(org: string, plan: string, now: int) returns (o: Outcome)
      modifies this
      ensures var (row, outcome) := AfterTrialStart(RowOf(old(subs), org, now), plan, now);
              o == outcome && subs == old(subs)[org := row]
      ensures var row := RowOf(old(subs), org, now);
              && (o == TrialAlreadyUsed <==> row.trialUsed)
              && (o == AlreadyPaid <==> !row.trialUsed && row.status == "active" && row.plan != "free")
              && (o == Done || o == TrialAlreadyUsed || o == AlreadyPaid)
      ensures var row := RowOf(old(subs), org, now);
              subs == old(subs)[org := if o == Done
                                       then row.(plan := plan, status := "trialing", trialUsed := true,
                                                 trialEndsAt := Some(now + 14 * 86400))
                                       else row]
    {
      var sub := GetSubscription(org, now);
      if sub.trialUsed {
        return TrialAlreadyUsed;
      }
      if sub.status == "active" && sub.plan != "free" {
        return AlreadyPaid;
      }
      sub := sub.(plan := plan, status := "trialing", trialUsed := true, trialEndsAt := Some(now + TRIAL_TICKS));
      subs := subs[org := sub];
      return Done;
    }

    /** Set the org's plan; an unknown plan is an error and touches nothing. */
    method ChangePlan(org: string, plan: string, status: string, now: int) returns (o: Outcome)
      modifies this
      ensures var (row, outcome) := AfterChange(RowOf(old(subs), org, now), plan, status, now);
              o == outcome && subs == if KnownPlan(plan) then old(subs)[org := row] else old(subs)
      ensures o == Done <==> plan in {"free", "starter", "pro", "business", "enterprise", "mssp"}
      ensures o == Done || (o == UnknownPlan && subs == old(subs))
      ensures o == Done ==>
                subs == old(subs)[org := RowOf(old(subs), org, now).(plan := plan, status := status, updatedAt := now)]
    {
      if !KnownPlan(plan) {
        return UnknownPlan;
      }
      var sub := GetSubscription(org, now);
      subs := subs[org := sub.(plan := plan, status := status, updatedAt := now)];
      return Done;
    }

    /** Checkout without a gateway. */
    method ManualCheckout(org: string, plan: string, now: int) returns (o: Outcome)
      modifies this
      ensures var (row, outcome) := AfterManualCheckout(RowOf(old(subs), org, now), plan, now);
              o == outcome && subs == if o == Done then old(subs)[org := row] else old(subs)
      ensures o == Done <==> plan in {"starter", "pro", "business", "mssp"}
      ensures o == Done || (o == NotSelfServe && subs == old(subs))
      ensures o == Done ==>
                var row := RowOf(old(subs), org, now);
                subs == old(subs)[org := row.(plan := plan, status := "active", updatedAt := now)]
    {
      if !KnownPlan(plan) || plan == "free" || plan == "enterprise" {
        return NotSelfServe;
      }
      o := ChangePlan(org, plan, "active", now);
    }

    method OnCheckout(org: string, obj: StripeObject, now: int) returns (accepted: bool)
      modifies this
      ensures subs == Deliver(config, old(subs),
                              FromStripe(Some(org), CheckoutCompleted(obj.plan, obj.customer, obj.subscription), now))
      ensures accepted <==> obj.plan.None? || KnownPlan(obj.plan.value)
    {
      var plan := if obj.plan.Some? then obj.plan.value else "pro";
      var sub := GetSubscription(org, now);
      if !KnownPlan(plan) {
        return false;
      }
      sub := sub.(customerId := OrElse(obj.customer, sub.customerId), externalId := obj.subscription);
      subs := subs[org := sub];
      var _ := ChangePlan(org, plan, "active", now);
      accepted := true;
    }

    method OnSubscriptionUpdated(org: string, obj: StripeObject, now: int)
      modifies this
      ensures subs == Deliver(config, old(subs),
                              FromStripe(Some(org), SubscriptionUpdated(obj.price, obj.status, obj.currentPeriodEnd),
                                         now))
    {
      var sub := GetSubscription(org, now);
      var status := if obj.status.Some? then obj.status.value else "active";
      sub := sub.(plan := PlanForPrice(config.stripe, obj.price));
      sub := sub.(status := if status in {"active", "trialing"} then "active" else status);
      sub := sub.(periodEnd := if obj.currentPeriodEnd == Some(0) then None else obj.currentPeriodEnd);
      subs := subs[org := sub];
    }

    /** Apply a Stripe webhook; a bad signature is refused before anything is read. */
    method StripeWebhook(signatureOk: bool, etype: string, obj: StripeObject, now: int) returns (accepted: bool)
      modifies this
      ensures subs == Received(config, old(subs), StripeHook(signatureOk, etype, obj, now))
      ensures accepted <==>
              && signatureOk
              && !(etype == "checkout.session.completed" && Named(StripeHook(true, etype, obj, now)).Some?
                   && obj.plan.Some? && !KnownPlan(obj.plan.value))
    {
      if !signatureOk {
        return false;
      }
      var org := OrgOf(obj);
      accepted := true;
      if etype == "checkout.session.completed" && org.Some? {
        accepted := OnCheckout(org.value, obj, now);
      } else if etype == "customer.subscription.updated" && org.Some? {
        OnSubscriptionUpdated(org.value, obj, now);
      } else if etype == "customer.subscription.deleted" && org.Some? {
        var _ := ChangePlan(org.value, "free", "canceled", now);
      } else if etype == "invoice.paid" && org.Some? {
        var sub := GetSubscription(org.value, now);
        subs := subs[org.value := sub.(status := "active")];
      } else if etype == "invoice.payment_failed" && org.Some? {
        var sub := GetSubscription(org.value, now);
        subs := subs[org.value := sub.(status := "past_due")];
      }
    }

    /** Apply a Razorpay webhook. */
    method RazorpayWebhook(signatureOk: bool, etype: string, notesOrg: Option<string>, planId: Option<string>, now: int)
      returns (accepted: bool)
      modifies this
      ensures subs == Received(config, old(subs), RazorpayHook(signatureOk, etype, notesOrg, planId, now))
      ensures accepted <==> signatureOk
    {
      if !signatureOk {
        return false;
      }
      accepted := true;
      if notesOrg.None? || notesOrg.value == "" {
        return;
      }
      var org := notesOrg.value;
      if etype in {"subscription.activated", "subscription.charged", "subscription.resumed"} {
        var _ := ChangePlan(org, PlanForPrice(config.razorpay, planId), "active", now);
      } else if etype in {"subscription.halted", "subscription.pending"} {
        var sub := GetSubscription(org, now);
        subs := subs[org := sub.(status := "past_due")];
      } else if etype in {"subscription.cancelled", "subscription.completed"} {
        var _ := ChangePlan(org, "free", "canceled", now);
      }
    }
  }

  // ----- sequences of webhooks --------------------------------------------------------------

  function Row(subs: Table, org: string): Option<Sub> {
    if org in subs then Some(subs[org]) else None
  }

  // ----- what a webhook does, by its name -----------------------------------------------------

  /** The org a webhook names: for Stripe in the metadata or else as client reference, for Razorpay in the
      notes.  An empty name is none. */
  function Named(w: Webhook): Option<string> {
    match w
    case StripeHook(_, _, obj, _) =>
      if obj.metadataOrg.Some? && obj.metadataOrg.value != "" then obj.metadataOrg
      else if obj.clientReference.Some? && obj.clientReference.value != "" then obj.clientReference
      else None
    case RazorpayHook(_, _, notesOrg, _, _) => if notesOrg.Some? && notesOrg.value != "" then notesOrg else None
  }

  /** The plan sold under an external id; the pro plan wins a shared id and stands for unknown ones. */
  ghost predicate SoldAs(c: Prices, id: Option<string>, plan: string) {
    && (id == c.starter && id != c.pro ==> plan == "starter")
    && (id != c.starter || id == c.pro ==> plan == "pro")
  }

  /** What a Stripe webhook of each name makes of its org's row; no other column changes. */
  ghost predicate StripeEffect(c: Prices, etype: string, obj: StripeObject, now: int, was: Sub, row: Sub) {
    && (etype == "invoice.paid" ==> row == was.(status := "active"))
    && (etype == "invoice.payment_failed" ==> row == was.(status := "past_due"))
    && (etype == "customer.subscription.deleted" ==>
          row == was.(plan := "free", status := "canceled", updatedAt := now))
    && (etype == "customer.subscription.updated" ==>
          && SoldAs(c, obj.price, row.plan)
          && (obj.status in {None, Some("active"), Some("trialing")} ==> row.status == "active")
          && (obj.status !in {None, Some("active"), Some("trialing")} ==> Some(row.status) == obj.status)
          && row.periodEnd == (if obj.currentPeriodEnd == Some(0) then None else obj.currentPeriodEnd)
          && row == was.(plan := row.plan, status := row.status, periodEnd := row.periodEnd))
    && (etype == "checkout.session.completed" ==>
          var plan := if obj.plan.Some? then obj.plan.value else "pro";
          if !KnownPlan(plan) then row == was else
            && row.customerId == (if obj.customer in {None, Some("")} then was.customerId else obj.customer)
            && row == was.(plan := plan, status := "active", updatedAt := now, externalId := obj.subscription,
                            customerId := row.customerId))
  }

  ghost predicate RazorpayEffect(c: Prices, etype: string, planId: Option<string>, now: int, was: Sub, row: Sub) {
    && (etype in {"subscription.activated", "subscription.charged", "subscription.resumed"} ==>
          SoldAs(c, planId, row.plan) && row == was.(plan := row.plan, status := "active", updatedAt := now))
    && (etype in {"subscription.halted", "subscription.pending"} ==> row == was.(status := "past_due"))
    && (etype in {"subscription.cancelled", "subscription.completed"} ==>
          row == was.(plan := "free", status := "canceled", updatedAt := now))
  }

  const STRIPE_NAMES := {
    "checkout.session.completed", "customer.subscription.updated", "customer.subscription.deleted", "invoice.paid",
    "invoice.payment_failed"
  }

  const RAZORPAY_NAMES := {
    "subscription.activated", "subscription.charged", "subscription.resumed", "subscription.halted",
    "subscription.pending", "subscription.cancelled", "subscription.completed"
  }

  predicate KnownName(w: Webhook) {
    w.etype in if w.StripeHook? then STRIPE_NAMES else RAZORPAY_NAMES
  }

  /** A webhook with a good signature, a known name and an org changes the row of that org as its name says
      and no other row; any other webhook leaves the table alone. */
  lemma HookEffect(c: Config, subs: Table, w: Webhook)
    ensures !(w.signatureOk && KnownName(w) && Named(w).Some?) ==> Received(c, subs, w) == subs
    ensures w.signatureOk && KnownName(w) && Named(w).Some? ==>
              var org := Named(w).value;
              var row := RowOf(Received(c, subs, w), org, w.now);
              Received(c, subs, w) == subs[org := row]
    ensures w.signatureOk && KnownName(w) && Named(w).Some? ==>
              var org := Named(w).value;
              var row := RowOf(Received(c, subs, w), org, w.now);
              var was := RowOf(subs, org, w.now);
              && (w.StripeHook? ==> StripeEffect(c.stripe, w.etype, w.obj, w.now, was, row))
              && (w.RazorpayHook? ==> RazorpayEffect(c.razorpay, w.etype, w.planId, w.now, was, row))
  {
    assert Decoded(w).org == Named(w);
  }

  /** The plan and the status a webhook writes, if it writes them, by its name. */
  function PlanWritten(c: Config, w: Webhook): Option<string> {
    if w.StripeHook? then
      if w.etype == "checkout.session.completed" then
        if w.obj.plan.None? then Some("pro") else if KnownPlan(w.obj.plan.value) then w.obj.plan else None
      else if w.etype == "customer.subscription.updated" then
        Some(if w.obj.price == c.stripe.starter && w.obj.price != c.stripe.pro then "starter" else "pro")
      else if w.etype == "customer.subscription.deleted" then Some("free")
      else None
    else if w.etype in {"subscription.activated", "subscription.charged", "subscription.resumed"} then
      Some(if w.planId == c.razorpay.starter && w.planId != c.razorpay.pro then "starter" else "pro")
    else if w.etype in {"subscription.cancelled", "subscription.completed"} then Some("free")
    else None
  }

  function StatusWritten(w: Webhook): Option<string> {
    if w.StripeHook? then
      if w.etype == "checkout.session.completed" then
        if w.obj.plan.None? || KnownPlan(w.obj.plan.value) then Some("active") else None
      else if w.etype == "customer.subscription.updated" then
        if w.obj.status.None? || w.obj.status.value == "trialing" then Some("active") else w.obj.status
      else if w.etype == "customer.subscription.deleted" then Some("canceled")
      else if w.etype == "invoice.paid" then Some("active")
      else if w.etype == "invoice.payment_failed" then Some("past_due")
      else None
    else if w.etype in {"subscription.activated", "subscription.charged", "subscription.resumed"} then Some("active")
    else if w.etype in {"subscription.halted", "subscription.pending"} then Some("past_due")
    else if w.etype in {"subscription.cancelled", "subscription.completed"} then Some("canceled")
    else None
  }

  predicate Counts(w: Webhook, org: string) {
    w.signatureOk && Named(w) == Some(org)
  }

  function LastPlan(c: Config, ws: seq<Webhook>, org: string, initial: string): string {
    if ws == [] then initial
    else
      var w := ws[|ws| - 1];
      if Counts(w, org) && PlanWritten(c, w).Some? then PlanWritten(c, w).value
      else LastPlan(c, ws[..|ws| - 1], org, initial)
  }

  function LastStatus(ws: seq<Webhook>, org: string, initial: string): string {
    if ws == [] then initial
    else
      var w := ws[|ws| - 1];
      if Counts(w, org) && StatusWritten(w).Some? then StatusWritten(w).value
      else LastStatus(ws[..|ws| - 1], org, initial)
  }

  function ReceiveAll(c: Config, subs: Table, ws: seq<Webhook>): Table {
    if ws == [] then subs else Received(c, ReceiveAll(c, subs, ws[..|ws| - 1]), ws[|ws| - 1])
  }

  lemma HookWrites(c: Config, subs: Table, w: Webhook, org: string, now: int)
    ensures var row, row' := RowOf(subs, org, now), RowOf(Received(c, subs, w), org, now);
            && row'.plan == (if Counts(w, org) && PlanWritten(c, w).Some? then PlanWritten(c, w).value else row.plan)
            && row'.status == if Counts(w, org) && StatusWritten(w).Some? then StatusWritten(w).value else row.status
  {
    HookEffect(c, subs, w);
  }

  /** After any sequence of webhooks of both gateways, each org's plan and status are the last ones that a
      webhook naming it wrote. */
  lemma {:induction false} LastWriterWins(c: Config, subs: Table, ws: seq<Webhook>, org: string, now: int)
    ensures RowOf(ReceiveAll(c, subs, ws), org, now).plan == LastPlan(c, ws, org, RowOf(subs, org, now).plan)
    ensures RowOf(ReceiveAll(c, subs, ws), org, now).status == LastStatus(ws, org, RowOf(subs, org, now).status)
    decreases |ws|
  {
    if ws != [] {
      var before, w := ws[..|ws| - 1], ws[|ws| - 1];
      LastWriterWins(c, subs, before, org, now);
      HookWrites(c, ReceiveAll(c, subs, before), w, org, now);
    }
  }

  function ForOrg(org: string): Webhook -> bool {
    (w: Webhook) => Counts(w, org)
  }

  /** An org's row depends on the webhooks that name it alone. */
  lemma {:induction false} OrgsAreIsolated(c: Config, subs: Table, ws: seq<Webhook>, org: string)
    ensures Row(ReceiveAll(c, subs, ws), org) == Row(ReceiveAll(c, subs, Filter(ws, ForOrg(org))), org)
    decreases |ws|
  {
    if ws != [] {
      var before, w := ws[..|ws| - 1], ws[|ws| - 1];
      OrgsAreIsolated(c, subs, before, org);
      var own := Filter(before, ForOrg(org));
      OneWebhook(c, subs, before, own, w, org);
      assert before + [w] == ws;
      assert Filter(ws, ForOrg(org)) == if Counts(w, org) then own + [w] else own;
    }
  }

  lemma OneWebhook(c: Config, subs: Table, ws: seq<Webhook>, own: seq<Webhook>, w: Webhook, org: string)
    requires Row(ReceiveAll(c, subs, ws), org) == Row(ReceiveAll(c, subs, own), org)
    ensures Row(ReceiveAll(c, subs, ws + [w]), org) ==
            Row(ReceiveAll(c, subs, if Counts(w, org) then own + [w] else own), org)
  {
    assert (ws + [w])[..|ws|] == ws && (own + [w])[..|own|] == own;
    assert Decoded(w).org == Named(w);
  }

  // ----- replays -------------------------------------------------------------------------------

  /** The table without its `updated_at` column. */
  function Unstamped(subs: Table): Table {
    map org | org in subs :: subs[org].(updatedAt := 0)
  }

  function At(w: Webhook, now: int): Webhook {
    w.(now := now)
  }

  /** Each webhook followed at once by a replay of it, at a time of its own. */
  function WithReplays(ws: seq<Webhook>, again: seq<int>): seq<Webhook>
    requires |ws| == |again|
  {
    if ws == [] then []
    else
      var n := |ws| - 1;
      WithReplays(ws[..n], again[..n]) + [ws[n]] + [At(ws[n], again[n])]
  }

  lemma RowIgnoresStamps(c: Config, s: Sub, t: Sub, d: Delivery, now: int)
    requires s.(updatedAt := 0) == t.(updatedAt := 0)
    ensures AfterDelivery(c, s, d).0.(updatedAt := 0) == AfterDelivery(c, t, d.(now := now)).0.(updatedAt := 0)
  {
  }

  lemma UnstampedUpdate(subs: Table, org: string, s: Sub)
    ensures Unstamped(subs[org := s]) == Unstamped(subs)[org := s.(updatedAt := 0)]
  {
  }

  lemma ReceivedIgnoresStamps(c: Config, a: Table, b: Table, w: Webhook, now: int)
    requires Unstamped(a) == Unstamped(b)
    ensures Unstamped(Received(c, a, w)) == Unstamped(Received(c, b, At(w, now)))
  {
    var d := Decoded(w);
    if w.signatureOk && Applies(d) {
      var org := d.org.value;
      assert org in a <==> org in Unstamped(a);
      assert org in b <==> org in Unstamped(b);
      var s, t := RowOf(a, org, d.now), RowOf(b, org, now);
      if org in a {
        assert Unstamped(a)[org] == Unstamped(b)[org];
      }
      RowIgnoresStamps(c, s, t, d, now);
      UnstampedUpdate(a, org, AfterDelivery(c, s, d).0);
      UnstampedUpdate(b, org, AfterDelivery(c, t, d.(now := now)).0);
    }
  }

  lemma DeliveryTwice(c: Config, s: Sub, d: Delivery, now: int)
    ensures AfterDelivery(c, AfterDelivery(c, s, d).0, d.(now := now)).0.(updatedAt := 0) ==
            AfterDelivery(c, s, d).0.(updatedAt := 0)
  {
  }

  lemma ReplayChangesNothing(c: Config, subs: Table, w: Webhook, now: int)
    ensures Unstamped(Received(c, Received(c, subs, w), At(w, now))) == Unstamped(Received(c, subs, w))
  {
    var d := Decoded(w);
    if w.signatureOk && Applies(d) {
      var org, s := d.org.value, RowOf(subs, d.org.value, d.now);
      DeliveryTwice(c, s, d, now);
      var once := AfterDelivery(c, s, d).0;
      UnstampedUpdate(subs, org, once);
      UnstampedUpdate(subs[org := once], org, AfterDelivery(c, once, d.(now := now)).0);
    }
  }

  /** Replaying every webhook of a sequence right after it arrived leaves the table as it was without the
      replays, up to `updated_at`. */
  lemma {:induction false} ReplaysAreHarmless(c: Config, subs: Table, ws: seq<Webhook>, again: seq<int>)
    requires |ws| == |again|
    ensures Unstamped(ReceiveAll(c, subs, WithReplays(ws, again))) == Unstamped(ReceiveAll(c, subs, ws))
    decreases |ws|
  {
    if ws != [] {
      var n := |ws| - 1;
      var twice, w := WithReplays(ws[..n], again[..n]), ws[n];
      ReplaysAreHarmless(c, subs, ws[..n], again[..n]);
      var t := ReceiveAll(c, subs, twice);
      assert (twice + [w])[..|twice|] == twice;
      assert (twice + [w] + [At(w, again[n])])[..|twice| + 1] == twice + [w];
      ReplayChangesNothing(c, t, w, again[n]);
      ReceivedIgnoresStamps(c, t, ReceiveAll(c, subs, ws[..n]), w, w.now);
    }
  }
}
