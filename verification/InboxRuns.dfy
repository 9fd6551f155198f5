/** The inbox bridge over whole runs. */
module InboxRuns {
  import opened Common
  import opened Inbox
  import opened InboxSafety

  /** The program's own routing and short ids. */
  ghost predicate Standard(c: Config) {
    && (forall m :: c.route(m) == RouteMessage(c.allowed, m))
    && (forall id :: c.short(id) == ShortId(id))
  }

  // ---- what becomes of a message, from its content alone ----

  /** Nothing a person wrote: a receipt, one of the three kinds of control traffic, or blanks. */
  predicate Quiet(content: Content) {
    match content
    case Receipt => true
    case Envelope(kind, text) => kind in {"identity_sync", "history_sync", "history_sync_data"} || Blank(text)
    case Plain(text) => Blank(text)
  }

  /** The text of a content begins with the command. */
  ghost predicate Commands(content: Content) {
    !content.Receipt? && exists pre, word, rest :: Commanding(content.text, pre, word, rest)
  }

  lemma StrippedBlank(s: string)
    ensures Stripped(s) == "" <==> Blank(s)
  {
    StrippedSplit(s);
    if Blank(s) { StrippedRest(s, ""); assert s + "" == s; }
  }

  /** The route of a message says exactly who sent it and what its content is. */
  lemma RoutesExact(allowed: set<string>, m: Message)
    ensures RouteMessage(allowed, m) == Ignored <==> m.peer !in allowed
    ensures RouteMessage(allowed, m) == Housekeeping <==> m.peer in allowed && Quiet(m.content)
    ensures RouteMessage(allowed, m) == Handoff <==> m.peer in allowed && !Quiet(m.content) && Commands(m.content)
    ensures RouteMessage(allowed, m) == Chat <==> m.peer in allowed && !Quiet(m.content) && !Commands(m.content)
  {
    if !m.content.Receipt? {
      StrippedBlank(m.content.text);
      CommandExact(m.content.text);
    }
  }

  lemma Reachable(c: Config, steps: seq<Step>)
    ensures Inv(c, After(c, START, steps))
  {
    assert Ids(START.tickets) == {};
    AfterOk(c, START, steps);
  }

  /**
   Whatever crashes, every reply sent answers a polled message of an allow-listed peer that is not
   housekeeping, goes back to that peer, and is sent when the ticket or chat line is already durable.
   */
  lemma RepliesAreEarned(c: Config, steps: seq<Step>, r: Reply)
    requires Standard(c) && r in After(c, START, steps).sent
    ensures var w := After(c, START, steps);
      exists m :: m in (if r.kind.Ack? then w.tickets else w.chat) && m in w.polled && m.id == r.id && m.peer == r.peer
        && m.received && m.peer in c.allowed && RouteMessage(c.allowed, m) == (if r.kind.Ack? then Handoff else Chat)
  {
    var w := After(c, START, steps);
    Reachable(c, steps);
    assert Backed(w.tickets, w.chat, r);
    var m :| m in (if r.kind.Ack? then w.tickets else w.chat) && m.id == r.id && m.peer == r.peer;
    assert Genuine(c, w.polled, m, if r.kind.Ack? then Handoff else Chat);
  }

  /** In every run a ticket carries a text with the command, and a chat line one without; housekeeping is neither. */
  lemma TicketsAreCommands(c: Config, steps: seq<Step>, m: Message)
    requires Standard(c)
    ensures m in After(c, START, steps).tickets ==> !Quiet(m.content) && Commands(m.content)
    ensures m in After(c, START, steps).chat ==> !Quiet(m.content) && !Commands(m.content)
  {
    Reachable(c, steps);
    RoutesExact(c.allowed, m);
  }

  /** No message id, indeed no short id, ever gets two tickets. */
  lemma OneTicketEach(c: Config, steps: seq<Step>, i: nat, j: nat)
    requires Standard(c) && i < j < |After(c, START, steps).tickets|
    ensures ShortId(After(c, START, steps).tickets[i].id) != ShortId(After(c, START, steps).tickets[j].id)
    ensures After(c, START, steps).tickets[i].id != After(c, START, steps).tickets[j].id
  {
    Reachable(c, steps);
  }

  /**
   Between two effects every ticket is either owed or was acknowledged, or was orphaned: the bridge
   crashed right after writing it, or lost its state before the first send. Never both.
   */
  lemma TicketsAccounted(c: Config, steps: seq<Step>)
    requires !After(c, START, steps).doing.Filed?
    ensures var w := After(c, START, steps);
      var told := Acks(w.saved.pending) + Acks(w.sent);
      Ids(w.tickets) == w.orphans + told && w.orphans !! told
  {
    Reachable(c, steps);
  }

  // ---- tickets nobody is owed an answer for ----

  ghost predicate Settled(w: World, id: string) {
    id in Ids(w.tickets) && id !in Acks(w.saved.pending) && id !in Filing(w)
  }

  predicate Unacked(sent: seq<Reply>, from: nat, id: string) {
    forall k :: from <= k < |sent| ==> sent[k].kind.Seen? || sent[k].id != id
  }

  lemma SettledNext(c: Config, w: World, step: Step, id: string)
    requires Inv(c, w) && Settled(w, id)
    ensures Settled(Next(c, w, step), id)
    ensures w.sent <= Next(c, w, step).sent && Unacked(Next(c, w, step).sent, |w.sent|, id)
  {
    var v := Next(c, w, step);
    match step
    case Take =>
      if v.doing.Filed? { assert Ids(v.tickets) == Ids(w.tickets) + {v.doing.message.id}; }
    case Commit => SettledCommit(c, w, id);
    case _ =>
  }

  lemma SettledCommit(c: Config, w: World, id: string)
    requires Inv(c, w) && Settled(w, id)
    ensures Settled(Committed(c, w), id) && Committed(c, w).sent == w.sent
  {
    var v := Committed(c, w);
    match w.doing
    case Filed(m, _) => PutMembers(w.saved.pending, Reply(m.id, m.peer, Ack));
    case Logged(m, _) => PutMembers(w.saved.pending, Reply(m.id, m.peer, Seen));
    case Answered(r) => assert v.saved.pending == w.saved.pending[1..];
    case _ =>
  }

  /** Once an acknowledgement is no longer owed for a ticket, none is ever sent again. */
  lemma {:induction false} SettledForever(c: Config, w: World, steps: seq<Step>, id: string)
    requires Inv(c, w) && Settled(w, id)
    ensures Settled(After(c, w, steps), id)
    ensures w.sent <= After(c, w, steps).sent && Unacked(After(c, w, steps).sent, |w.sent|, id)
    decreases |steps|
  {
    if steps == [] {
    } else {
      var v := Next(c, w, steps[0]);
      NextOk(c, w, steps[0]);
      SettledNext(c, w, steps[0], id);
      SettledForever(c, v, steps[1..], id);
      var last := After(c, w, steps);
      forall k | |w.sent| <= k < |last.sent| ensures last.sent[k].kind.Seen? || last.sent[k].id != id {
        if k < |v.sent| { assert last.sent[k] == v.sent[k]; }
      }
    }
  }

  /** In particular a ticket orphaned by a crash is never acknowledged, though it is there. */
  lemma OrphansUnacknowledged(c: Config, before: seq<Step>, steps: seq<Step>, id: string)
    requires id in After(c, START, before).orphans
    ensures id in Ids(After(c, After(c, START, before), steps).tickets)
    ensures id !in Acks(After(c, After(c, START, before), steps).sent)
  {
    var w := After(c, START, before);
    Reachable(c, before);
    SettledForever(c, w, steps, id);
  }

  // ---- which messages take effect ----

  /**
   A message takes effect, as a ticket or a chat line, exactly when no ticket has its short id and it
   carries human text from an allow-listed peer.
   */
  lemma EffectExact(c: Config, w: World)
    requires Standard(c) && w.doing.Draining? && w.doing.queue != []
    ensures var m, v := w.doing.queue[0], Taken(c, w);
      v.tickets != w.tickets || v.chat != w.chat <==>
        m.id != "" && (forall t :: t in w.tickets ==> ShortId(t.id) != ShortId(m.id))
        && m.peer in c.allowed && HumanText(m.content).Some?
  {
    var m, v := w.doing.queue[0], Taken(c, w);
    assert |v.tickets| > |w.tickets| ==> v.tickets != w.tickets;
    assert |v.chat| > |w.chat| ==> v.chat != w.chat;
    if forall t :: t in w.tickets ==> ShortId(t.id) != ShortId(m.id) { assert !Ticketed(c, w.tickets, m.id); }
    if Ticketed(c, w.tickets, m.id) {
      var t :| t in w.tickets && c.short(t.id) == c.short(m.id);
      assert ShortId(t.id) == ShortId(m.id);
    }
  }

  /** A message whose short id is taken by another message's ticket is dropped for good. */
  lemma {:induction false} SameShortDropped(c: Config, w: World, steps: seq<Step>, id: string)
    requires Inv(c, w) && Ticketed(c, w.tickets, id) && id !in Ids(w.tickets)
    ensures id !in Ids(After(c, w, steps).tickets)
    ensures w.chat <= After(c, w, steps).chat
    ensures forall k :: |w.chat| <= k < |After(c, w, steps).chat| ==> After(c, w, steps).chat[k].id != id
    decreases |steps|
  {
    if steps == [] {
    } else {
      var v := Next(c, w, steps[0]);
      NextOk(c, w, steps[0]);
      SameShortKept(c, w, steps[0], id);
      SameShortDropped(c, v, steps[1..], id);
      var last := After(c, w, steps);
      forall k | |w.chat| <= k < |last.chat| ensures last.chat[k].id != id {
        if k < |v.chat| { assert last.chat[k] == v.chat[k]; }
      }
    }
  }

  lemma SameShortKept(c: Config, w: World, step: Step, id: string)
    requires Inv(c, w) && Ticketed(c, w.tickets, id) && id !in Ids(w.tickets)
    ensures var v := Next(c, w, step);
      Ticketed(c, v.tickets, id) && id !in Ids(v.tickets) && w.chat <= v.chat
      && forall k :: |w.chat| <= k < |v.chat| ==> v.chat[k].id != id
  {
    var v := Next(c, w, step);
    var t :| t in w.tickets && c.short(t.id) == c.short(id);
    assert t in v.tickets;
  }
}
