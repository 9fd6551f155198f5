/** The poll loop as a program: one pass drains the fresh messages, then flushes the outstanding replies. */
module InboxBridge {
  import opened Inbox
  import opened InboxSafety
  import opened InboxRuns

  // ---- a pass as a run of the state machine ----

  function Drained(c: Config, w: World): World
    requires w.doing.Draining?
    decreases |w.doing.queue|
  {
    if w.doing.queue == [] then w else Drained(c, Committed(c, Taken(c, w)))
  }

  /** The ids of a polled history. */
  function Known(messages: seq<Message>): seq<string> {
    if messages == [] then []
    else
      var front, m := messages[..|messages| - 1], messages[|messages| - 1];
      Known(front) + (if m.id != "" then [m.id] else [])
  }

  lemma {:induction false} KnownOnly(messages: seq<Message>, id: string)
    ensures |Known(messages)| <= |messages|
    ensures id in Known(messages) <==> id != "" && exists m :: m in messages && m.id == id
  {
    if messages == [] {
    } else {
      var front, last := messages[..|messages| - 1], messages[|messages| - 1];
      KnownOnly(front, id);
      assert messages == front + [last];
    }
  }

  /** The ids of the last n messages are among the last n ids. */
  lemma {:induction false} KnownLast(messages: seq<Message>, i: nat, n: nat)
    requires i < |messages| <= i + n && messages[i].id != ""
    ensures messages[i].id in Last(Known(messages), n)
  {
    var front, last := messages[..|messages| - 1], messages[|messages| - 1];
    if i == |messages| - 1 {
      var all := Known(messages);
      assert all[|all| - 1] == last.id;
      assert Last(all, n)[|Last(all, n)| - 1] == last.id;
    } else {
      KnownLast(front, i, n - 1);
      LastMore(Known(front), Known(messages), n, messages[i].id);
    }
  }

  lemma LastMore(s: seq<string>, more: seq<string>, n: nat, id: string)
    requires n > 0 && id in Last(s, n - 1) && (more == s || (|more| == |s| + 1 && more[..|s|] == s))
    ensures id in Last(more, n)
  {
    var a, b := Last(s, n - 1), Last(more, n);
    var k :| 0 <= k < |a| && a[k] == id;
    var at := |s| - |a| + k;
    assert s[at] == id && more[at] == id;
    assert b[at - (|more| - |b|)] == id;
  }

  /** The received messages of allow-listed peers that are not yet seen. */
  function Picked(c: Config, s: State, messages: seq<Message>): seq<Message> {
    if messages == [] then []
    else
      var front, m := messages[..|messages| - 1], messages[|messages| - 1];
      Picked(c, s, front) + (if Fresh(c, s, m) then [m] else [])
  }

  lemma {:induction false} PickedFresh(c: Config, s: State, messages: seq<Message>)
    ensures forall m :: m in Picked(c, s, messages) <==> m in messages && Fresh(c, s, m)
  {
    if messages == [] {
    } else {
      PickedFresh(c, s, messages[..|messages| - 1]);
      assert messages == messages[..|messages| - 1] + [messages[|messages| - 1]];
    }
  }

  // ---- the order of a pass ----

  function Inserted(sorted: seq<Message>, m: Message): seq<Message> {
    if sorted == [] then [m]
    else
      var front, last := sorted[..|sorted| - 1], sorted[|sorted| - 1];
      if last.time <= m.time then sorted + [m] else Inserted(front, m) + [last]
  }

  /** A stable sort by time. */
  function ByTime(messages: seq<Message>): seq<Message> {
    if messages == [] then [] else Inserted(ByTime(messages[..|messages| - 1]), messages[|messages| - 1])
  }

  predicate InOrder(messages: seq<Message>) {
    forall i, j :: 0 <= i < j < |messages| ==> messages[i].time <= messages[j].time
  }

  /** The messages of one time, in the order they come. */
  function OfTime(messages: seq<Message>, time: int): seq<Message> {
    if messages == [] then []
    else
      var front, m := messages[..|messages| - 1], messages[|messages| - 1];
      OfTime(front, time) + (if m.time == time then [m] else [])
  }

  lemma OfTimeMore(front: seq<Message>, m: Message, time: int)
    ensures OfTime(front + [m], time) == OfTime(front, time) + (if m.time == time then [m] else [])
  {
    assert (front + [m])[..|front|] == front;
  }

  lemma {:induction false} InsertedSame(sorted: seq<Message>, m: Message)
    ensures multiset(Inserted(sorted, m)) == multiset(sorted) + multiset{m}
  {
    if sorted == [] {
    } else {
      var front, last := sorted[..|sorted| - 1], sorted[|sorted| - 1];
      assert multiset(sorted) == multiset(front) + multiset{last} by { assert sorted == front + [last]; }
      InsertedSame(front, m);
    }
  }

  lemma InsertedMember(sorted: seq<Message>, m: Message, x: Message)
    requires x in Inserted(sorted, m)
    ensures x == m || x in sorted
  {
    InsertedSame(sorted, m);
    assert x in multiset(Inserted(sorted, m));
  }

  lemma {:induction false} InsertedInOrder(sorted: seq<Message>, m: Message)
    requires InOrder(sorted)
    ensures InOrder(Inserted(sorted, m))
  {
    if sorted == [] {
    } else {
      var front, last := sorted[..|sorted| - 1], sorted[|sorted| - 1];
      InsertedInOrder(front, m);
      forall x | x in Inserted(front, m) ensures last.time > m.time ==> x.time <= last.time {
        InsertedMember(front, m, x);
      }
    }
  }

  lemma {:induction false} InsertedStable(sorted: seq<Message>, m: Message, time: int)
    requires InOrder(sorted)
    ensures OfTime(Inserted(sorted, m), time) == OfTime(sorted, time) + (if m.time == time then [m] else [])
  {
    if sorted == [] {
      OfTimeMore([], m, time);
      assert [] + [m] == [m];
    } else {
      var front, last := sorted[..|sorted| - 1], sorted[|sorted| - 1];
      if last.time <= m.time {
        OfTimeMore(sorted, m, time);
      } else {
        InsertedStable(front, m, time);
        OfTimeMore(Inserted(front, m), last, time);
        assert m.time != time || last.time != time;
      }
    }
  }

  lemma {:induction false} ByTimeSame(messages: seq<Message>)
    ensures multiset(ByTime(messages)) == multiset(messages)
  {
    if messages == [] {
    } else {
      var front, last := messages[..|messages| - 1], messages[|messages| - 1];
      assert multiset(messages) == multiset(front) + multiset{last} by { assert messages == front + [last]; }
      ByTimeSame(front);
      InsertedSame(ByTime(front), last);
    }
  }

  lemma {:induction false} ByTimeOrdered(messages: seq<Message>, time: int)
    ensures InOrder(ByTime(messages)) && OfTime(ByTime(messages), time) == OfTime(messages, time)
  {
    if messages == [] {
    } else {
      var front, last := messages[..|messages| - 1], messages[|messages| - 1];
      ByTimeOrdered(front, time);
      InsertedInOrder(ByTime(front), last);
      InsertedStable(ByTime(front), last, time);
    }
  }

  /** The sorted messages are the same ones, by time, and in their old order within a time. */
  lemma ByTimeExact(messages: seq<Message>)
    ensures InOrder(ByTime(messages)) && multiset(ByTime(messages)) == multiset(messages)
    ensures forall time :: OfTime(ByTime(messages), time) == OfTime(messages, time)
  {
    ByTimeSame(messages);
    forall time ensures InOrder(ByTime(messages)) && OfTime(ByTime(messages), time) == OfTime(messages, time) {
      ByTimeOrdered(messages, time);
    }
    ByTimeOrdered(messages, 0);
  }

  /** The confirmed flag of a send decides whether the flush goes on; every save follows its send. */
  function Flushed(c: Config, w: World, answers: seq<(bool, bool)>): World
    requires w.doing == Draining([])
    decreases |answers|
  {
    if answers == [] || w.saved.pending == [] then w
    else
      var sent := Sent(w, answers[0].0, answers[0].1);
      if answers[0].1 then Flushed(c, Committed(c, sent), answers[1..]) else sent
  }

  lemma {:induction false} AfterJoin(c: Config, w: World, a: seq<Step>, b: seq<Step>)
    ensures After(c, w, a + b) == After(c, After(c, w, a), b)
    decreases |a|
  {
    if a == [] {
      assert a + b == b;
    } else {
      assert (a + b)[0] == a[0] && (a + b)[1..] == a[1..] + b;
      AfterJoin(c, Next(c, w, a[0]), a[1..], b);
    }
  }

  lemma {:induction false} DrainedIsRun(c: Config, w: World) returns (steps: seq<Step>)
    requires w.doing.Draining?
    ensures Drained(c, w) == After(c, w, steps) && Drained(c, w).doing == Draining([])
    decreases |w.doing.queue|
  {
    if w.doing.queue == [] {
      steps := [];
    } else {
      var rest := DrainedIsRun(c, Committed(c, Taken(c, w)));
      steps := [Take, Commit] + rest;
    }
  }

  lemma {:induction false} FlushedIsRun(c: Config, w: World, answers: seq<(bool, bool)>) returns (steps: seq<Step>)
    requires w.doing == Draining([])
    ensures Flushed(c, w, answers) == After(c, w, steps)
    decreases |answers|
  {
    steps := [];
    if answers != [] && w.saved.pending != [] {
      var send := Send(answers[0].0, answers[0].1);
      if answers[0].1 {
        var rest := FlushedIsRun(c, Committed(c, Sent(w, answers[0].0, answers[0].1)), answers[1..]);
        steps := [send, Commit] + rest;
      } else {
        steps := [send];
        assert After(c, w, [send]) == Next(c, w, send);
      }
    }
  }

  lemma SortedFresh(c: Config, s: State, messages: seq<Message>)
    ensures forall m :: m in ByTime(Picked(c, s, messages)) <==> m in messages && Fresh(c, s, m)
  {
    var picked := Picked(c, s, messages);
    PickedFresh(c, s, messages);
    ByTimeSame(picked);
    forall m ensures m in ByTime(picked) <==> m in picked {
      assert m in multiset(ByTime(picked)) <==> m in multiset(picked);
    }
  }

  /** The whole pass is a run, so a pass cut short anywhere keeps everything a run keeps. */
  lemma PassIsRun(c: Config, w: World, batch: seq<Message>, answers: seq<(bool, bool)>) returns (steps: seq<Step>)
    requires w.doing == Draining([])
    ensures Drained(c, Polled(c, w, batch)).doing == Draining([])
    ensures Flushed(c, Drained(c, Polled(c, w, batch)), answers) == After(c, w, steps)
  {
    var v := Polled(c, w, batch);
    var drain := DrainedIsRun(c, v);
    var flush := FlushedIsRun(c, Drained(c, v), answers);
    AfterJoin(c, v, drain, flush);
    steps := [Poll(batch)] + (drain + flush);
    assert steps[1..] == drain + flush;
  }

  lemma DrainedOk(c: Config, w: World)
    requires Inv(c, w) && w.doing.Draining?
    ensures Inv(c, Drained(c, w)) && Drained(c, w).doing == Draining([])
  {
    var steps := DrainedIsRun(c, w);
    AfterOk(c, w, steps);
  }

  lemma FlushedOk(c: Config, w: World, answers: seq<(bool, bool)>)
    requires Inv(c, w) && w.doing == Draining([])
    ensures Inv(c, Flushed(c, w, answers))
  {
    var steps := FlushedIsRun(c, w, answers);
    AfterOk(c, w, steps);
  }

  // ---- what a pass does for its messages ----

  /** A handoff has its ticket; a chat message has its line, or its short id has a ticket. */
  predicate Served(c: Config, tickets: seq<Message>, chat: seq<Message>, m: Message) {
    && (m.id != "" && c.route(m) == Handoff ==> Ticketed(c, tickets, m.id))
    && (m.id != "" && c.route(m) == Chat ==> m in chat || Ticketed(c, tickets, m.id))
  }

  /** One message: its effect is durable and owed an answer, and nothing written before is touched. */
  lemma HandledServes(c: Config, w: World, m: Message, queue: seq<Message>)
    requires w.doing == Draining([m] + queue)
    ensures var v := Committed(c, Taken(c, w));
      && v.doing == Draining(queue) && Served(c, v.tickets, v.chat, m)
      && w.tickets <= v.tickets && w.chat <= v.chat
      && (v.tickets != w.tickets || v.chat != w.chat ==>
            Reply(m.id, m.peer, if c.route(m) == Handoff then Ack else Seen) in v.saved.pending)
  {
    assert w.doing.queue[0] == m && w.doing.queue[1..] == queue;
    var s := Noticed(c, w.saved, m.id);
    PutMembers(s.pending, Reply(m.id, m.peer, if c.route(m) == Handoff then Ack else Seen));
    assert m in w.tickets + [m] && m in w.chat + [m];
  }

  lemma ServedGrows(c: Config, tickets: seq<Message>, chat: seq<Message>, more: seq<Message>, lines: seq<Message>,
                    m: Message)
    requires Served(c, tickets, chat, m) && tickets <= more && chat <= lines
    ensures Served(c, more, lines, m)
  {
    forall t | t in tickets ensures t in more { var k :| 0 <= k < |tickets| && tickets[k] == t; assert more[k] == t; }
    if m in chat { var k :| 0 <= k < |chat| && chat[k] == m; assert lines[k] == m; }
  }

  lemma {:induction false} DrainedServes(c: Config, w: World, m: Message)
    requires w.doing.Draining?
    ensures w.tickets <= Drained(c, w).tickets && w.chat <= Drained(c, w).chat
    ensures m in w.doing.queue ==> Served(c, Drained(c, w).tickets, Drained(c, w).chat, m)
    decreases |w.doing.queue|
  {
    if w.doing.queue == [] {
    } else {
      var first, queue := w.doing.queue[0], w.doing.queue[1..];
      assert w.doing.queue == [first] + queue;
      var v := Committed(c, Taken(c, w));
      HandledServes(c, w, first, queue);
      DrainedServes(c, v, m);
      if m == first { ServedGrows(c, v.tickets, v.chat, Drained(c, v).tickets, Drained(c, v).chat, m); }
    }
  }

  lemma {:induction false} FlushedKeeps(c: Config, w: World, answers: seq<(bool, bool)>)
    requires w.doing == Draining([])
    ensures var v := Flushed(c, w, answers);
      v.tickets == w.tickets && v.chat == w.chat && v.doing == Draining([]) && v.saved.baselined == w.saved.baselined
    decreases |answers|
  {
    if answers == [] || w.saved.pending == [] {
    } else if answers[0].1 {
      FlushedKeeps(c, Committed(c, Sent(w, answers[0].0, answers[0].1)), answers[1..]);
    }
  }

  lemma {:induction false} DrainedBaselined(c: Config, w: World)
    requires w.doing.Draining?
    ensures Drained(c, w).saved.baselined == w.saved.baselined
    decreases |w.doing.queue|
  {
    if w.doing.queue == [] {
    } else {
      DrainedBaselined(c, Committed(c, Taken(c, w)));
    }
  }

  lemma TakenQueue(c: Config, w: World, m: Message, queue: seq<Message>)
    requires w.doing == Draining([m] + queue)
    ensures Committed(c, Taken(c, w)).doing == Draining(queue)
    ensures Drained(c, w) == Drained(c, Committed(c, Taken(c, w)))
  {
    assert ([m] + queue)[1..] == queue;
  }

  lemma PassServes(c: Config, w: World)
    requires Inv(c, w) && w.doing.Draining?
    ensures var v := Drained(c, w);
      && Inv(c, v) && v.doing == Draining([]) && v.saved.baselined == w.saved.baselined
      && forall m :: m in w.doing.queue ==> Served(c, v.tickets, v.chat, m)
  {
    DrainedOk(c, w);
    DrainedBaselined(c, w);
    forall m | m in w.doing.queue ensures Served(c, Drained(c, w).tickets, Drained(c, w).chat, m) {
      DrainedServes(c, w, m);
    }
  }

  /** A pass remembers the ids it handled, in order, and of all remembered ids the last ones that fit. */
  lemma {:induction false} DrainedSeen(c: Config, w: World)
    requires w.doing.Draining? && |w.saved.seen| <= c.window
    ensures Drained(c, w).saved.seen == Last(w.saved.seen + Handled(w.doing.queue), c.window)
    decreases |w.doing.queue|
  {
    if w.doing.queue == [] {
      assert w.saved.seen + [] == w.saved.seen;
    } else {
      var m, queue := w.doing.queue[0], w.doing.queue[1..];
      var v := Committed(c, Taken(c, w));
      assert w.doing.queue == [m] + queue;
      TakenQueue(c, w, m, queue);
      TakenSeen(c, w, m, queue);
      DrainedSeen(c, v);
      SeenJoin(w.saved.seen, m.id, Handled(queue), c.window);
    }
  }

  lemma TakenSeen(c: Config, w: World, m: Message, queue: seq<Message>)
    requires w.doing == Draining([m] + queue)
    ensures Committed(c, Taken(c, w)).saved.seen ==
      if m.id == "" then w.saved.seen else Last(w.saved.seen + [m.id], c.window)
  {
  }

  lemma SeenJoin(seen: seq<string>, id: string, rest: seq<string>, n: nat)
    ensures Last(Last(seen + [id], n) + rest, n) == Last(seen + ([id] + rest), n)
  {
    var s := seen + [id];
    assert seen + ([id] + rest) == s + rest;
    var a, b := Last(s, n) + rest, s + rest;
    if |s| > n { assert a == b[|s| - n..]; }
  }

  /** The ids a pass handles, in its order. */
  function Handled(queue: seq<Message>): seq<string> {
    if queue == [] then [] else if queue[0].id == "" then Handled(queue[1..]) else [queue[0].id] + Handled(queue[1..])
  }

  lemma {:induction false} FlushedSeen(c: Config, w: World, answers: seq<(bool, bool)>)
    requires w.doing == Draining([])
    ensures Flushed(c, w, answers).saved.seen == w.saved.seen
    decreases |answers|
  {
    if answers == [] || w.saved.pending == [] {
    } else if answers[0].1 {
      FlushedSeen(c, Committed(c, Sent(w, answers[0].0, answers[0].1)), answers[1..]);
    }
  }

  /** With the program's own routing, a served message has what its content calls for. */
  lemma ServedMeans(c: Config, tickets: seq<Message>, chat: seq<Message>, m: Message)
    requires Standard(c) && Served(c, tickets, chat, m) && m.peer in c.allowed && m.id != "" && !Quiet(m.content)
    ensures Commands(m.content) ==> exists t :: t in tickets && ShortId(t.id) == ShortId(m.id)
    ensures !Commands(m.content) ==> m in chat || exists t :: t in tickets && ShortId(t.id) == ShortId(m.id)
  {
    RoutesExact(c.allowed, m);
    if Ticketed(c, tickets, m.id) {
      var t :| t in tickets && c.short(t.id) == c.short(m.id);
      assert ShortId(t.id) == ShortId(m.id);
    }
  }

  lemma AllServedMean(c: Config, tickets: seq<Message>, chat: seq<Message>, s: State, messages: seq<Message>)
    requires Standard(c) && forall m :: m in messages && Fresh(c, s, m) ==> Served(c, tickets, chat, m)
    ensures forall m :: m in messages && Fresh(c, s, m) && m.id != "" && !Quiet(m.content) ==>
      && (Commands(m.content) ==> exists t :: t in tickets && ShortId(t.id) == ShortId(m.id))
      && (!Commands(m.content) ==> m in chat || exists t :: t in tickets && ShortId(t.id) == ShortId(m.id))
  {
    forall m | m in messages && Fresh(c, s, m) && m.id != "" && !Quiet(m.content)
      ensures Commands(m.content) ==> exists t :: t in tickets && ShortId(t.id) == ShortId(m.id)
      ensures !Commands(m.content) ==> m in chat || exists t :: t in tickets && ShortId(t.id) == ShortId(m.id)
    {
      ServedMeans(c, tickets, chat, m);
    }
  }

  lemma BaselineSeen(messages: seq<Message>, n: nat)
    ensures forall i :: |messages| - n <= i < |messages| && 0 <= i && messages[i].id != "" ==>
      messages[i].id in Last(Known(messages), n)
    ensures forall id :: id in Last(Known(messages), n) ==> exists m :: m in messages && m.id == id
  {
    forall i | |messages| - n <= i < |messages| && 0 <= i && messages[i].id != ""
      ensures messages[i].id in Last(Known(messages), n)
    {
      KnownLast(messages, i, n);
    }
    forall id | id in Last(Known(messages), n) ensures exists m :: m in messages && m.id == id {
      KnownOnly(messages, id);
    }
  }

  class Bridge {
    const c: Config
    var saved: State
    var tickets: seq<Message>
    var chat: seq<Message>
    ghost var doing: Activity
    ghost var polled: seq<Message>
    ghost var sent: seq<Reply>
    ghost var orphans: set<string>

    ghost function Now(): World
      reads this
    {
      World(saved, tickets, chat, doing, polled, sent, orphans)
    }

    /** What every run keeps: tickets with different short ids, replies that are earned, tickets accounted for. */
    ghost predicate Valid()
      reads this
    {
      Inv(c, Now())
    }

    constructor (c: Config)
      ensures Valid() && this.c == c && Now() == START
    {
      this.c, saved, tickets, chat := c, State(false, [], []), [], [];
      doing, polled, sent, orphans := Down, [], [], {};
      new;
      assert Ids(tickets) == {};
    }

    /** The process comes up, with whatever is on disk. */
    method Boot()
      requires Valid() && doing.Down?
      modifies this`doing
      ensures Valid() && doing == Draining([]) && Now() == Next(c, old(Now()), Step.Boot)
    {
      doing := Draining([]);
    }

    /**
     One pass over the polled history: the first ever only marks it as seen. After any later one every
     fresh handoff has its ticket and every fresh chat message its line, unless its short id has a ticket.
     */
    method DrainOnce(messages: seq<Message>, answers: seq<(bool, bool)>)
      requires Valid() && doing == Draining([])
      modifies this
      ensures Valid() && doing == Draining([]) && saved.baselined
      ensures !old(saved.baselined) ==>
        && Now() == Baselined(c, old(Now()), Known(messages))
        && (forall i :: |messages| - c.window <= i < |messages| && 0 <= i && messages[i].id != "" ==>
              messages[i].id in saved.seen)
        && (forall id :: id in saved.seen ==> exists m :: m in messages && m.id == id)
      ensures old(saved.baselined) && |old(saved.seen)| <= c.window ==>
        saved.seen == Last(old(saved.seen) + Handled(ByTime(Picked(c, old(saved), messages))), c.window)
      ensures old(saved.baselined) && Standard(c) ==>
        forall m :: m in messages && Fresh(c, old(saved), m) && m.id != "" && !Quiet(m.content) ==>
          && (Commands(m.content) ==> exists t :: t in tickets && ShortId(t.id) == ShortId(m.id))
          && (!Commands(m.content) ==> m in chat || exists t :: t in tickets && ShortId(t.id) == ShortId(m.id))
      ensures old(saved.baselined) ==>
        && (forall m :: m in messages && Fresh(c, old(saved), m) ==> Served(c, tickets, chat, m))
        && var drained := Drained(c, Polled(c, old(Now()), ByTime(Picked(c, old(saved), messages))));
        drained.doing == Draining([]) && Now() == Flushed(c, drained, answers)
    {
      var known, batch := [], [];
      for i := 0 to |messages|
        invariant known == Known(messages[..i]) && batch == Picked(c, saved, messages[..i])
      {
        var m := messages[i];
        assert messages[..i + 1][..i] == messages[..i];
        if m.id != "" { known := known + [m.id]; }
        if Fresh(c, saved, m) { batch := batch + [m]; }
      }
      assert messages[..|messages|] == messages;
      if !saved.baselined {
        NextOk(c, Now(), Baseline(known));
        BaselineSeen(messages, c.window);
        saved := saved.(baselined := true, seen := Last(known, c.window));
        return;
      }
      SortedFresh(c, saved, messages);
      ghost var picked, before := Polled(c, Now(), ByTime(batch)), saved;
      if |saved.seen| <= c.window { DrainedSeen(c, picked); }
      Drain(ByTime(batch));
      FlushedSeen(c, Now(), answers);
      FlushAcks(answers);
      if Standard(c) { AllServedMean(c, tickets, chat, before, messages); }
    }

    method Drain(batch: seq<Message>)
      requires Valid() && doing == Draining([]) && saved.baselined && forall m :: m in batch ==> Fresh(c, saved, m)
      modifies this
      ensures Valid() && doing == Draining([]) && saved.baselined
      ensures forall m :: m in batch ==> Served(c, tickets, chat, m)
      ensures Now() == Drained(c, Polled(c, old(Now()), batch))
    {
      PassServes(c, Polled(c, Now(), batch));
      doing, polled := Draining(batch), polled + batch;
      TakeUpAll(batch);
    }

    method TakeUpAll(batch: seq<Message>)
      requires doing == Draining(batch)
      modifies this
      ensures doing == Draining([]) && Now() == Drained(c, old(Now()))
    {
      var i := 0;
      while i < |batch|
        invariant 0 <= i <= |batch| && doing == Draining(batch[i..])
        invariant Drained(c, Now()) == Drained(c, old(Now()))
      {
        ghost var now := Now();
        assert batch[i..] == [batch[i]] + batch[i + 1..];
        TakeUp(batch[i], batch[i + 1..]);
        TakenQueue(c, now, batch[i], batch[i + 1..]);
        i := i + 1;
      }
    }

    /** The body of the loop over the fresh messages. */
    method TakeUp(m: Message, ghost queue: seq<Message>)
      requires doing == Draining([m] + queue)
      modifies this
      ensures Now() == Committed(c, Taken(c, old(Now())))
    {
      assert doing.queue[1..] == queue;
      doing := Draining(queue);
      if m.id == "" { return; }
      var short := c.short(m.id);
      var s := saved.(seen := Last(saved.seen + [m.id], c.window));
      if exists t :: t in tickets && c.short(t.id) == short {
        saved := s;
      } else if c.route(m) == Handoff {
        tickets := tickets + [m];
        saved := s.(pending := Put(s.pending, Reply(m.id, m.peer, Ack)));
      } else if c.route(m) == Chat {
        chat := chat + [m];
        saved := s.(pending := Put(s.pending, Reply(m.id, m.peer, Seen)));
      } else {
        saved := s;
      }
    }

    method FlushAcks(answers: seq<(bool, bool)>)
      requires Valid() && doing == Draining([])
      modifies this
      ensures Valid() && doing == Draining([]) && Now() == Flushed(c, old(Now()), answers)
      ensures tickets == old(tickets) && chat == old(chat) && saved.baselined == old(saved.baselined)
    {
      FlushedOk(c, Now(), answers);
      FlushedKeeps(c, Now(), answers);
      SendAll(answers);
    }

    method SendAll(answers: seq<(bool, bool)>)
      requires doing == Draining([])
      modifies this
      ensures Now() == Flushed(c, old(Now()), answers)
    {
      var i := 0;
      while i < |answers| && saved.pending != []
        invariant 0 <= i <= |answers| && doing == Draining([])
        invariant Flushed(c, Now(), answers[i..]) == Flushed(c, old(Now()), answers)
      {
        var r := saved.pending[0];
        var (delivered, confirmed) := answers[i];
        if delivered || confirmed { sent := sent + [r]; }
        if !confirmed { return; }
        saved := saved.(pending := Dropped(saved.pending, r.id));
        i := i + 1;
      }
    }
  }

  /** The poll loop from the very first start: baseline, then one pass after the other. */
  method Serve(c: Config, history: seq<Message>, passes: seq<(seq<Message>, seq<(bool, bool)>)>) returns (b: Bridge)
    ensures fresh(b) && b.c == c && b.Valid() && b.doing == Draining([]) && b.saved.baselined
    ensures forall r :: r in b.sent ==> Backed(b.tickets, b.chat, r)
    ensures Distinct(c, b.tickets)
  {
    b := new Bridge(c);
    b.Boot();
    b.DrainOnce(history, []);
    for i := 0 to |passes|
      invariant fresh(b) && b.c == c && b.Valid() && b.doing == Draining([]) && b.saved.baselined
    {
      b.DrainOnce(passes[i].0, passes[i].1);
    }
  }
}
