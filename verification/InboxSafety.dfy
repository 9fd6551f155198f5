/** What every run of the inbox bridge satisfies, with crashes anywhere and a state file that may be lost. */
module InboxSafety {
  import opened Inbox

  /** Where a reply comes from: a ticket for an [ACK], a chat line for a [SEEN]. */
  ghost predicate Backed(tickets: seq<Message>, chat: seq<Message>, r: Reply) {
    exists m :: m in (if r.kind.Ack? then tickets else chat) && m.id == r.id && m.peer == r.peer
  }

  ghost predicate Genuine(c: Config, polled: seq<Message>, m: Message, route: Route) {
    m in polled && m.received && m.peer in c.allowed && c.route(m) == route
  }

  ghost predicate Distinct(c: Config, tickets: seq<Message>) {
    forall i, j :: 0 <= i < j < |tickets| ==> c.short(tickets[i].id) != c.short(tickets[j].id)
  }

  function Ids(tickets: seq<Message>): set<string> { set m | m in tickets :: m.id }

  ghost predicate Records(c: Config, w: World) {
    && Distinct(c, w.tickets)
    && (forall m :: m in w.tickets ==> Genuine(c, w.polled, m, Handoff))
    && (forall m :: m in w.chat ==> Genuine(c, w.polled, m, Chat))
  }

  ghost predicate Promises(w: World) {
    && (forall r :: r in w.saved.pending ==> Backed(w.tickets, w.chat, r))
    && (forall r :: r in w.sent ==> Backed(w.tickets, w.chat, r))
  }

  ghost predicate Queued(c: Config, w: World, queue: seq<Message>) {
    forall m :: m in queue ==> m in w.polled && m.received && m.peer in c.allowed
  }

  ghost predicate DoingOk(c: Config, w: World) {
    match w.doing
    case Down => true
    case Draining(queue) => Queued(c, w, queue)
    case Filed(m, queue) => Queued(c, w, queue) && m in w.tickets
    case Logged(m, queue) => Queued(c, w, queue) && m in w.chat && !Ticketed(c, w.tickets, m.id)
    case Answered(r) => w.saved.pending != [] && w.saved.pending[0] == r && r in w.sent
  }

  /** The ticket being filed, if any. */
  function Filing(w: World): set<string> { if w.doing.Filed? then {w.doing.message.id} else {} }

  /** Every ticket is orphaned, or owed or acknowledged, or just being filed, and only one of these. */
  ghost predicate Accounted(w: World) {
    var told := Acks(w.saved.pending) + Acks(w.sent);
    && Ids(w.tickets) == w.orphans + told + Filing(w)
    && w.orphans !! told && Filing(w) !! w.orphans + told
  }

  ghost predicate Inv(c: Config, w: World) {
    Records(c, w) && Promises(w) && DoingOk(c, w) && Accounted(w)
  }

  // ---- small steps ----

  lemma {:induction false} PutMembers(pending: seq<Reply>, r: Reply)
    ensures r in Put(pending, r)
    ensures forall x :: x in Put(pending, r) ==> x == r || x in pending
    ensures forall x :: x in pending && x.id != r.id ==> x in Put(pending, r)
  {
    if pending != [] && pending[0].id != r.id {
      PutMembers(pending[1..], r);
      assert pending == [pending[0]] + pending[1..];
    }
  }

  lemma PolledOk(c: Config, w: World, queue: seq<Message>)
    requires Inv(c, w)
    ensures Inv(c, Polled(c, w, queue))
  {
    var v := Polled(c, w, queue);
  }

  lemma LoggedOk(c: Config, w: World, m: Message, queue: seq<Message>)
    requires Inv(c, w) && w.doing == Draining([m] + queue) && !Ticketed(c, w.tickets, m.id) && c.route(m) == Chat
    ensures Inv(c, w.(chat := w.chat + [m], doing := Logged(m, queue)))
  {
    assert forall x :: x in queue ==> x in [m] + queue;
  }

  lemma TakenOk(c: Config, w: World)
    requires Inv(c, w)
    ensures Inv(c, Taken(c, w))
  {
    if w.doing.Draining? && w.doing.queue != [] {
      var m, queue := w.doing.queue[0], w.doing.queue[1..];
      assert w.doing.queue == [m] + queue;
      if m.id != "" && !Ticketed(c, w.tickets, m.id) && c.route(m) == Handoff {
      } else if m.id != "" && !Ticketed(c, w.tickets, m.id) && c.route(m) == Chat {
        LoggedOk(c, w, m, queue);
      }
    }
  }

  lemma CommittedOk(c: Config, w: World)
    requires Inv(c, w)
    ensures Inv(c, Committed(c, w))
  {
    match w.doing
    case Filed(m, queue) => OwedOk(c, w, m, Ack, queue);
    case Logged(m, queue) => OwedOk(c, w, m, Seen, queue);
    case Answered(r) =>
      var v := Committed(c, w);
      assert v.saved.pending == Dropped(w.saved.pending, r.id) == w.saved.pending[1..];
      assert w.saved.pending == [r] + v.saved.pending;
      assert Acks(v.saved.pending) + Acks(w.sent) == Acks(w.saved.pending) + Acks(w.sent);
    case _ =>
  }

  lemma OwedOk(c: Config, w: World, m: Message, kind: Kind, queue: seq<Message>)
    requires Inv(c, w)
    requires w.doing == if kind.Ack? then Filed(m, queue) else Logged(m, queue)
    ensures Inv(c, Owed(c, w, m, kind, queue))
  {
    var r, v := Reply(m.id, m.peer, kind), Owed(c, w, m, kind, queue);
    PutMembers(w.saved.pending, r);
    assert Backed(w.tickets, w.chat, r);
    assert kind.Seen? ==> m.id !in Ids(w.tickets);
    assert Acks(v.saved.pending) == Acks(w.saved.pending) + Filing(w);
  }

  lemma SentOk(c: Config, w: World, delivered: bool, confirmed: bool)
    requires Inv(c, w)
    ensures Inv(c, Sent(w, delivered, confirmed))
  {
    var v := Sent(w, delivered, confirmed);
    assert Acks(v.saved.pending) + Acks(v.sent) == Acks(w.saved.pending) + Acks(w.sent);
  }

  lemma LostOk(c: Config, w: World)
    requires Inv(c, w)
    ensures Inv(c, Lost(w))
  {
  }

  lemma NextOk(c: Config, w: World, step: Step)
    requires Inv(c, w)
    ensures Inv(c, Next(c, w, step))
  {
    match step
    case Boot =>
    case Baseline(_) =>
    case Poll(queue) => PolledOk(c, w, queue);
    case Take => TakenOk(c, w);
    case Commit => CommittedOk(c, w);
    case Send(delivered, confirmed) => SentOk(c, w, delivered, confirmed);
    case Crash =>
    case Lose => LostOk(c, w);
  }

  lemma {:induction false} AfterOk(c: Config, w: World, steps: seq<Step>)
    requires Inv(c, w)
    ensures Inv(c, After(c, w, steps))
    decreases |steps|
  {
    if steps == [] {
    } else {
      NextOk(c, w, steps[0]);
      AfterOk(c, Next(c, w, steps[0]), steps[1..]);
    }
  }
}
