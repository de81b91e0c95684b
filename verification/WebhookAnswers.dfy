// What the payment handlers answer, and what the event table makes of it: which
// deliveries are asked for again, and which are the last their event gets.
module WebhookAnswers {
  import opened Wrappers
  import opened Ledger
  import opened Store
  import opened Payments
  import opened PaymentProofs
  import opened PaymentOutcomes
  import Events = WebhookEvents

  /** Only a verification that could not be made asks for another delivery with its
      answer. A ledger refusal is an application error below 500, and acknowledged;
      anything else the handler raises is a crash. Every other answer is final. */
  function EndingOf(hook: Hook): Events.Ending {
    match hook
    case VerifyFailed => Events.AskedAgain
    case HandlerFailed(error) => if error == IntegrityError then Events.AskedAgain else Events.Acknowledged
    case _ => Events.Answered
  }

  /** A charge is asked for again exactly when its row is pending and could not be
      verified, and nothing has changed then; a credit is always the last answer. */
  lemma ChargeAsksAgain(w: World, p: nat, reply: ChargeReply, naira: Option<bool>)
    requires PaymentInv(w) && p < |w.wires| && Honest(w, ChargeEvent(p, reply, naira))
    ensures var d := ChargeSuccess(w.store, p, reply, naira);
      && EndingOf(d.hook) == (if w.store.payments[p].status == PaymentPending && reply.ChargeUnknown?
                              then Events.AskedAgain else Events.Answered)
      && (EndingOf(d.hook) == Events.AskedAgain ==> d.store == w.store)
  {
    ChargeOutcome(w, p, reply, naira);
  }

  /** And so is the success of a transfer. */
  lemma SuccessAsksAgain(w: World, p: nat, reply: TransferReply)
    requires PaymentInv(w) && p < |w.wires| && Honest(w, SuccessEvent(p, reply))
    ensures var d := TransferSuccess(w.store, p, reply);
      && EndingOf(d.hook) == (if w.store.payments[p].status == PaymentPending && reply.TransferUnknown?
                              then Events.AskedAgain else Events.Answered)
      && (EndingOf(d.hook) == Events.AskedAgain ==> d.store == w.store)
  {
    SuccessOutcome(w, p, reply);
  }

  /** Failures and reversals are never asked for again. */
  lemma UndoneIsAnswered(w: World, p: nat, reversed: bool)
    requires PaymentInv(w) && p < |w.wires| && Honest(w, if reversed then ReversedEvent(p) else FailedEvent(p))
    ensures EndingOf(TransferUndone(w.store, p, if reversed then PaymentRefunded else PaymentFailed).hook)
         == Events.Answered
  {
    UndoneOutcome(w, p, reversed);
  }

  /** One delivery of a handled event, from its arrival to its handler's ending. */
  function Delivery(key: Events.Key, hook: Hook): seq<Events.Tick> {
    [Events.Arrives(key, true)] + [Events.Ends(key, EndingOf(hook))]
  }

  lemma OneDelivery(ticks: seq<Events.Tick>, handled: set<Events.Key>, key: Events.Key, hook: Hook)
    requires Events.Consistent(ticks, handled) && key in handled && Waits(ticks, key)
    ensures var d := Events.Run(ticks + Delivery(key, hook));
      && Events.Consistent(ticks + Delivery(key, hook), handled) && d.running[key] == 0
      && Events.EndingsOf(d, key) == Events.EndingsOf(Events.Run(ticks), key) + [EndingOf(hook)]
  {
    var d := Events.Run(ticks);
    Events.HandledAgainIff(ticks, handled, key);
    Events.RunTwo(ticks, Events.Arrives(key, true), Events.Ends(key, EndingOf(hook)));
    assert ticks + Delivery(key, hook)
        == ticks + [Events.Arrives(key, true)] + [Events.Ends(key, EndingOf(hook))];
    assert Events.Next(d, Events.Arrives(key, true)).running[key] == 1;
  }

  /** No handler is running for the event, it has had fewer than five, and each of
      them left it failed: the next delivery runs one. */
  predicate Waits(ticks: seq<Events.Tick>, key: Events.Key) {
    var d := Events.Run(ticks);
    && d.running[key] == 0 && |Events.EndingsOf(d, key)| < 5
    && forall e :: e in Events.EndingsOf(d, key) ==> e == Events.Acknowledged || e == Events.AskedAgain
  }

  /** A delivery that asks again leaves the event waiting, up to the last of five;
      any other closes it: nothing is ever run for it again. */
  lemma AskedAgainWaits(ticks: seq<Events.Tick>, handled: set<Events.Key>, key: Events.Key, hook: Hook)
    requires Events.Consistent(ticks, handled) && key in handled && Waits(ticks, key)
    ensures var more := ticks + Delivery(key, hook);
      && (Waits(more, key) <==>
           EndingOf(hook) != Events.Answered && |Events.EndingsOf(Events.Run(ticks), key)| < 4)
      && (!Waits(more, key) ==> Events.ClosedKey(Events.Run(more), key))
  {
    OneDelivery(ticks, handled, key, hook);
    var more := ticks + Delivery(key, hook);
    var before, after := Events.EndingsOf(Events.Run(ticks), key), Events.EndingsOf(Events.Run(more), key);
    assert after[|before|] == EndingOf(hook) && after[|before|] in after;
    assert forall e :: e in after ==> e in before || e == EndingOf(hook);
    Events.BoundedRedrive(more, handled, key);
    Events.ClaimableIff(Events.Run(more), handled, key);
  }
}
