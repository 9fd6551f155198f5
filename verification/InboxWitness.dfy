/** Runs of the inbox bridge in which a ticket is orphaned and a message is dropped. */
module InboxWitness {
  import opened Inbox
  import opened InboxSafety
  import opened InboxRuns

  /** A first start with an empty history, and the messages of the first pass. */
  function Opening(queue: seq<Message>): seq<Step> { [Boot, Baseline([]), Poll(queue)] }

  /** A received message with an id that asks an allow-listed bridge for a ticket. */
  predicate AsksTicket(c: Config, m: Message) {
    m.received && m.peer in c.allowed && m.id != "" && c.route(m) == Handoff
  }

  lemma OpeningEnd(c: Config, m: Message, more: seq<Step>)
    requires AsksTicket(c, m)
    ensures After(c, START, Opening([m]) + more) ==
      After(c, World(State(true, [], []), [], [], Draining([m]), [m], [], {}), more)
  {
    var steps := Opening([m]) + more;
    var up := START.(doing := Draining([]));
    var based := up.(saved := State(true, [], []));
    var polled := World(State(true, [], []), [], [], Draining([m]), [m], [], {});
    assert steps[0] == Boot && steps[1..] == [Baseline([]), Poll([m])] + more;
    assert After(c, START, steps) == After(c, up, steps[1..]);
    assert steps[1..][1..] == [Poll([m])] + more && Next(c, up, Baseline([])) == based;
    assert After(c, up, steps[1..]) == After(c, based, steps[1..][1..]);
    assert steps[1..][1..][1..] == more;
    assert Next(c, based, Poll([m])) == polled by { assert [] + [m] == [m]; }
  }

  /** Any handoff message is orphaned by a crash right after its ticket: the ticket stays, and no answer ever comes. */
  lemma OrphanHappens(c: Config, m: Message, later: seq<Step>)
    requires AsksTicket(c, m)
    ensures var before := Opening([m]) + [Take, Crash];
      && m.id in After(c, START, before).orphans
      && m.id in Ids(After(c, After(c, START, before), later).tickets)
      && m.id !in Acks(After(c, After(c, START, before), later).sent)
  {
    var w := World(State(true, [], []), [], [], Draining([m]), [m], [], {});
    OpeningEnd(c, m, [Take, Crash]);
    var filed := w.(tickets := [m], doing := Filed(m, []));
    assert Taken(c, w) == filed by { assert [m][1..] == [] && [] + [m] == [m]; }
    assert After(c, w, [Take, Crash]) == After(c, filed, [Crash]) == After(c, Crashed(filed), []);
    OrphansUnacknowledged(c, Opening([m]) + [Take, Crash], later, m.id);
  }

  /** Once a message has its ticket, any other message with the same short id is dropped in whatever follows. */
  lemma DropHappens(c: Config, m: Message, id: string, later: seq<Step>)
    requires AsksTicket(c, m) && id != m.id && c.short(id) == c.short(m.id)
    ensures var before := Opening([m]) + [Take, Commit];
      var last := After(c, After(c, START, before), later);
      id !in Ids(last.tickets) && forall k :: 0 <= k < |last.chat| ==> last.chat[k].id != id
  {
    var w := World(State(true, [], []), [], [], Draining([m]), [m], [], {});
    OpeningEnd(c, m, [Take, Commit]);
    var filed := w.(tickets := [m], doing := Filed(m, []));
    assert Taken(c, w) == filed by { assert [m][1..] == [] && [] + [m] == [m]; }
    assert After(c, w, [Take, Commit]) == After(c, filed, [Commit]) == After(c, Committed(c, filed), []);
    var v := Committed(c, filed);
    Reachable(c, Opening([m]) + [Take, Commit]);
    assert m in v.tickets;
    SameShortDropped(c, v, later, id);
  }

  /** The short id ignores what is no letter and no digit. */
  lemma ShortClash()
    ensures ShortId("a") == ShortId("a-") && "a" != "a-"
  {
    assert Cleaned("a") == "a" by { assert "a"[1..] == ""; }
    assert Cleaned("a-") == "a" by {
      assert "a-"[1..] == "-" && "-"[1..] == "";
      assert Cleaned("-") == "";
    }
  }
}
