/** What the inbox bridge never handles again, and the texts it reads: blanks, short ids and ticket names. */
module InboxSeen {
  import opened Common
  import opened Inbox

  // ---- no message twice within the window ----

  /** The number of ids remembered after the last occurrence of this one. */
  function Rank(seen: seq<string>, id: string): nat
    requires id in seen
  {
    if seen[|seen| - 1] == id then 0 else 1 + Rank(seen[..|seen| - 1], id)
  }

  lemma {:induction false} RankDrop(seen: seq<string>, id: string, d: nat)
    requires id in seen && Rank(seen, id) + d < |seen|
    ensures id in seen[d..] && Rank(seen[d..], id) == Rank(seen, id)
  {
    var kept := seen[d..];
    assert kept[|kept| - 1] == seen[|seen| - 1];
    if seen[|seen| - 1] != id {
      var front := seen[..|seen| - 1];
      RankDrop(front, id, d);
      assert kept[..|kept| - 1] == front[d..];
      assert forall x :: x in front[d..] ==> x in kept;
    }
  }

  lemma RankLast(seen: seq<string>, id: string, n: nat)
    requires id in seen && Rank(seen, id) < n
    ensures id in Last(seen, n) && Rank(Last(seen, n), id) == Rank(seen, id)
  {
    if |seen| > n { RankDrop(seen, id, |seen| - n); }
  }

  lemma RankNoticed(c: Config, s: State, id: string, other: string)
    requires id in s.seen && Rank(s.seen, id) + 1 < c.window
    ensures id in Noticed(c, s, other).seen && Rank(Noticed(c, s, other).seen, id) <= Rank(s.seen, id) + 1
  {
    var seen := s.seen + [other];
    assert seen[..|seen| - 1] == s.seen;
    RankLast(seen, id, c.window);
  }

  /** The messages of the current pass that are not yet saved as handled. */
  function Unsaved(w: World): nat {
    match w.doing
    case Draining(queue) => |queue|
    case Filed(_, queue) => 1 + |queue|
    case Logged(_, queue) => 1 + |queue|
    case _ => 0
  }

  /** The id stays among the remembered ones for this many more messages. */
  ghost predicate Held(c: Config, w: World, id: string, more: nat) {
    id in w.saved.seen && Rank(w.saved.seen, id) + Unsaved(w) + more < c.window
  }

  lemma HeldTake(c: Config, w: World, id: string, more: nat)
    requires Held(c, w, id, more)
    ensures Held(c, Taken(c, w), id, more)
  {
    if w.doing.Draining? && w.doing.queue != [] { RankNoticed(c, w.saved, id, w.doing.queue[0].id); }
  }

  lemma HeldCommit(c: Config, w: World, id: string, more: nat)
    requires Held(c, w, id, more)
    ensures Held(c, Committed(c, w), id, more)
  {
    if w.doing.Filed? || w.doing.Logged? { RankNoticed(c, w.saved, id, w.doing.message.id); }
  }

  lemma PolledNew(c: Config, w: World, queue: seq<Message>, id: string)
    requires id in w.saved.seen
    ensures var v := Polled(c, w, queue);
      w.polled <= v.polled && forall k :: |w.polled| <= k < |v.polled| ==> v.polled[k].id != id
  {
    var v := Polled(c, w, queue);
    forall k | |w.polled| <= k < |v.polled| ensures v.polled[k].id != id {
      assert v.polled[k] == queue[k - |w.polled|] && v.polled[k] in queue;
    }
  }

  lemma HeldNext(c: Config, w: World, step: Step, id: string, more: nat)
    requires !step.Lose? && w.saved.baselined
    requires |Next(c, w, step).polled| - |w.polled| <= more && Held(c, w, id, more)
    ensures var v := Next(c, w, step);
      && v.saved.baselined && w.polled <= v.polled && Held(c, v, id, more - (|v.polled| - |w.polled|))
      && forall k :: |w.polled| <= k < |v.polled| ==> v.polled[k].id != id
  {
    match step
    case Take => HeldTake(c, w, id, more);
    case Commit => HeldCommit(c, w, id, more);
    case Poll(queue) => PolledNew(c, w, queue, id);
    case _ =>
  }

  ghost predicate Lossless(steps: seq<Step>) { forall i :: 0 <= i < |steps| ==> !steps[i].Lose? }

  lemma {:induction false} PolledMore(c: Config, w: World, steps: seq<Step>)
    ensures w.polled <= After(c, w, steps).polled
    decreases |steps|
  {
    if steps == [] {
    } else {
      PolledMore(c, Next(c, w, steps[0]), steps[1..]);
    }
  }

  /**
   Whatever crashes, a message remembered as handled is not taken up again before as many others as the
   window holds have been, unless the state file is lost.
   */
  lemma {:induction false} NotTwice(c: Config, w: World, steps: seq<Step>, id: string)
    requires w.saved.baselined && id in w.saved.seen && Lossless(steps)
    requires var polled := |After(c, w, steps).polled| - |w.polled|;
      Rank(w.saved.seen, id) + Unsaved(w) + polled < c.window
    ensures id in After(c, w, steps).saved.seen
    ensures forall k :: |w.polled| <= k < |After(c, w, steps).polled| ==> After(c, w, steps).polled[k].id != id
    decreases |steps|
  {
    if steps == [] {
    } else {
      var v, last := Next(c, w, steps[0]), After(c, w, steps);
      PolledMore(c, v, steps[1..]);
      PolledMore(c, w, steps[..1]);
      assert After(c, w, steps[..1]) == v by { assert steps[..1][1..] == []; }
      HeldNext(c, w, steps[0], id, |last.polled| - |w.polled|);
      NotTwice(c, v, steps[1..], id);
      forall k | |w.polled| <= k < |last.polled| ensures last.polled[k].id != id {
        if k < |v.polled| { assert last.polled[k] == v.polled[k]; }
      }
    }
  }

  // ---- the baseline ----

  /** Without a baseline nothing is read, written or sent. */
  lemma {:induction false} NothingBeforeBaseline(c: Config, w: World, steps: seq<Step>)
    requires !w.saved.baselined && w.saved.pending == [] && (w.doing.Down? || w.doing == Draining([]))
    requires forall i :: 0 <= i < |steps| ==> !steps[i].Baseline?
    ensures var v := After(c, w, steps);
      v.polled == w.polled && v.tickets == w.tickets && v.chat == w.chat && v.sent == w.sent && !v.saved.baselined
    decreases |steps|
  {
    if steps == [] {
    } else {
      NothingBeforeBaseline(c, Next(c, w, steps[0]), steps[1..]);
    }
  }

  /** Nor after the state file was lost, until the next baseline. */
  lemma NothingAfterLoss(c: Config, w: World, steps: seq<Step>)
    requires w.doing.Down? && forall i :: 0 <= i < |steps| ==> !steps[i].Baseline?
    ensures var v := After(c, Lost(w), steps);
      v.polled == w.polled && v.tickets == w.tickets && v.chat == w.chat && v.sent == w.sent
  {
    NothingBeforeBaseline(c, Lost(w), steps);
  }

  function WithoutBaselines(steps: seq<Step>): seq<Step> {
    if steps == [] then []
    else (if steps[0].Baseline? then [] else [steps[0]]) + WithoutBaselines(steps[1..])
  }

  /** Once made, the baseline is made again only after the state file was lost. */
  lemma {:induction false} BaselineOnce(c: Config, w: World, steps: seq<Step>)
    requires w.saved.baselined && Lossless(steps)
    ensures After(c, w, steps) == After(c, w, WithoutBaselines(steps)) && After(c, w, steps).saved.baselined
    decreases |steps|
  {
    if steps == [] {
    } else {
      BaselineOnce(c, Next(c, w, steps[0]), steps[1..]);
      var rest := WithoutBaselines(steps[1..]);
      if steps[0].Baseline? {
        assert WithoutBaselines(steps) == rest;
      } else {
        assert WithoutBaselines(steps)[0] == steps[0] && WithoutBaselines(steps)[1..] == rest;
      }
    }
  }

  // ---- texts ----

  /** The twenty-nine characters Python strips. */
  const SPACES :=
    "\t\n\U{B}\U{C}\r\U{1C}\U{1D}\U{1E}\U{1F} \U{85}\U{A0}\U{1680}\U{2000}\U{2001}\U{2002}\U{2003}\U{2004}"
    + "\U{2005}\U{2006}\U{2007}\U{2008}\U{2009}\U{200A}\U{2028}\U{2029}\U{202F}\U{205F}\U{3000}"

  lemma SpacesAre(c: char)
    ensures Space(c) <==> c in SPACES
  {
  }

  /** Capital letters become small ones, and nothing else changes. */
  lemma LowerIs(c: char)
    ensures Lower(c) == if c in "ABCDEFGHIJKLMNOPQRSTUVWXYZ" then c + ' ' else c
  {
  }

  ghost predicate AllAlphanumeric(s: string) { forall i :: 0 <= i < |s| ==> Alphanumeric(s[i]) }

  lemma Associate(a: string, b: string, c: string)
    ensures a + (b + c) == a + b + c
  {
  }

  lemma {:induction false} CleanedJoin(a: string, b: string)
    ensures Cleaned(a + b) == Cleaned(a) + Cleaned(b)
  {
    if a == [] {
      assert a + b == b;
    } else {
      var head := if Alphanumeric(a[0]) then [a[0]] else [];
      assert Cleaned(a + b) == head + Cleaned(a[1..] + b) by {
        assert (a + b)[0] == a[0] && (a + b)[1..] == a[1..] + b;
      }
      CleanedJoin(a[1..], b);
      Associate(head, Cleaned(a[1..]), Cleaned(b));
    }
  }

  lemma {:induction false} CleanedSame(s: string)
    requires AllAlphanumeric(s)
    ensures Cleaned(s) == s
  {
    if s == [] {
    } else {
      CleanedSame(s[1..]);
    }
  }

  /** A short id is the first twelve letters and digits: it ignores all others, and everything behind. */
  lemma ShortIdIgnores(a: string, x: char, b: string)
    ensures !Alphanumeric(x) ==> ShortId(a + [x] + b) == ShortId(a + b)
  {
    if !Alphanumeric(x) {
      assert Cleaned(a + [x] + b) == Cleaned(a + b) by {
        CleanedJoin(a, b);
        CleanedJoin(a + [x], b);
        CleanedJoin(a, [x]);
        assert Cleaned([x]) == [];
      }
    }
  }

  lemma ShortIdIs(s: string)
    requires AllAlphanumeric(s)
    ensures ShortId(s) == if s == "" then "unknown" else if |s| <= 12 then s else s[..12]
  {
    CleanedSame(s);
  }

  lemma Framed(name: string, head: string, tail: string)
    requires |name| >= |head| + |tail| && name[..|head|] == head && name[|name| - |tail|..] == tail
    ensures name == head + name[|head|..|name| - |tail|] + tail
  {
  }

  lemma Unframed(head: string, stamp: string, tail: string)
    ensures (head + stamp + tail)[..|head|] == head
    ensures (head + stamp + tail)[|head + stamp + tail| - |tail|..] == tail
  {
    assert head + stamp + tail == head + (stamp + tail);
  }

  /** The names looked for are exactly those a ticket with this short id may have. */
  lemma MatchesExact(name: string, id: string)
    ensures Matches(name, id) <==> exists stamp :: name == "INBOX_" + stamp + "_" + (ShortId(id) + ".md")
  {
    var short := ShortId(id);
    var tail := "_" + short + ".md";
    assert tail == "_" + (short + ".md");
    if Matches(name, id) {
      var stamp := name[6..|name| - |tail|];
      Framed(name, "INBOX_", tail);
      Associate("INBOX_" + stamp, "_", short + ".md");
    }
    if stamp :| name == "INBOX_" + stamp + "_" + (short + ".md") {
      Associate("INBOX_" + stamp, "_", short + ".md");
      Unframed("INBOX_", stamp, tail);
    }
  }
}
