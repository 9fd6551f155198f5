/**
 The message inbox bridge: routing of inbound messages, ticket names, and the poll loop as a state
 machine over its durable files with a crash between any two durable effects.
 */
module Inbox {
  import opened Common

  /** The parsed content of a message. */
  datatype Content =
    | Receipt                                // exactly the keys of a delivery receipt
    | Envelope(kind: string, text: string)   // a message envelope; a missing kind is blank
    | Plain(text: string)                    // anything else

  datatype Message = Message(id: string, peer: string, received: bool, time: int, content: Content)

  datatype Route = Ignored | Housekeeping | Handoff | Chat

  // ---- routing ----

  /** White space as Python knows it. */
  predicate Space(c: char) {
    || '\U{9}' <= c <= '\U{D}' || '\U{1C}' <= c <= '\U{20}' || c == '\U{85}' || c == '\U{A0}' || c == '\U{1680}'
    || '\U{2000}' <= c <= '\U{200A}' || c == '\U{2028}' || c == '\U{2029}' || c == '\U{202F}' || c == '\U{205F}'
    || c == '\U{3000}'
  }

  function Stripped(s: string): string {
    if s != [] && Space(s[0]) then Stripped(s[1..]) else s
  }

  function Lower(c: char): char { if 'A' <= c <= 'Z' then c - 'A' + 'a' else c }

  function Lowered(s: string): string {
    seq(|s|, i requires 0 <= i < |s| => Lower(s[i]))
  }

  const COMMAND := "/handoff"

  /** `parse_command`: the body after a leading command word, or nothing. */
  function Command(text: string): Option<string> {
    var s := Stripped(text);
    if |s| < |COMMAND| || Lowered(s[..|COMMAND|]) != COMMAND then None
    else if |s| > |COMMAND| && !Space(s[|COMMAND|]) then None
    else Some(Stripped(s[|COMMAND|..]))
  }

  predicate Blank(s: string) { forall i :: 0 <= i < |s| ==> Space(s[i]) }

  lemma {:induction false} StrippedSplit(s: string)
    ensures exists pre :: Blank(pre) && s == pre + Stripped(s)
    ensures Stripped(s) == [] || !Space(Stripped(s)[0])
  {
    if s != [] && Space(s[0]) {
      StrippedSplit(s[1..]);
      var pre :| Blank(pre) && s[1..] == pre + Stripped(s[1..]);
      assert Blank([s[0]] + pre) && s == [s[0]] + pre + Stripped(s);
    } else {
      assert Blank([]) && s == [] + Stripped(s);
    }
  }

  lemma {:induction false} StrippedRest(pre: string, rest: string)
    requires Blank(pre) && (rest == [] || !Space(rest[0]))
    ensures Stripped(pre + rest) == rest
  {
    if pre == [] {
      assert pre + rest == rest;
    } else {
      assert (pre + rest)[0] == pre[0] && (pre + rest)[1..] == pre[1..] + rest;
      StrippedRest(pre[1..], rest);
    }
  }

  /** The word /handoff, in any letter case, after blanks only, ending the text or followed by a blank. */
  ghost predicate Commanding(text: string, pre: string, word: string, rest: string) {
    && text == pre + word + rest && Blank(pre) && |word| == 8 && Lowered(word) == "/handoff"
    && (rest == [] || Space(rest[0]))
  }

  /** A text is a handoff command exactly when it has this form, and then the body is what follows. */
  lemma CommandExact(text: string)
    ensures Command(text).Some? <==> exists pre, word, rest :: Commanding(text, pre, word, rest)
    ensures forall pre, word, rest :: Commanding(text, pre, word, rest) ==> Command(text) == Some(Stripped(rest))
  {
    forall pre, word, rest | Commanding(text, pre, word, rest) ensures Command(text) == Some(Stripped(rest)) {
      assert Lowered(word)[0] == COMMAND[0];
      assert !Space(word[0]);
      assert text == pre + (word + rest);
      StrippedRest(pre, word + rest);
      assert (word + rest)[..|COMMAND|] == word && (word + rest)[|COMMAND|..] == rest;
    }
    if Command(text).Some? {
      StrippedSplit(text);
      var s := Stripped(text);
      var pre :| Blank(pre) && text == pre + s;
      assert s == s[..|COMMAND|] + s[|COMMAND|..];
      assert Commanding(text, pre, s[..|COMMAND|], s[|COMMAND|..]);
    }
  }

  const CONTROL_KINDS := {"identity_sync", "history_sync", "history_sync_data"}

  /** `classify_content`: the human text, or nothing for protocol traffic. */
  function HumanText(content: Content): Option<string> {
    match content
    case Receipt => None
    case Envelope(kind, text) => if Stripped(text) == "" || kind in CONTROL_KINDS then None else Some(text)
    case Plain(text) => if Stripped(text) == "" then None else Some(text)
  }

  function RouteMessage(allowed: set<string>, m: Message): Route {
    if m.peer !in allowed then Ignored
    else
      match HumanText(m.content)
      case None => Housekeeping
      case Some(text) => if Command(text).Some? then Handoff else Chat
  }

  // ---- ticket names ----

  function Cleaned(id: string): string {
    if id == [] then [] else (if Alphanumeric(id[0]) then [id[0]] else []) + Cleaned(id[1..])
  }

  function ShortId(id: string): string {
    var cleaned := Cleaned(id);
    if cleaned == [] then "unknown" else if |cleaned| > 12 then cleaned[..12] else cleaned
  }

  function TicketName(stamp: string, id: string): string { "INBOX_" + stamp + "_" + ShortId(id) + ".md" }

  /** The file name pattern that `existing_ticket` looks for. */
  predicate Matches(name: string, id: string) {
    var marker := "_" + ShortId(id) + ".md";
    |name| >= 6 + |marker| && name[..6] == "INBOX_" && name[|name| - |marker|..] == marker
  }

  lemma {:induction false} CleanedOk(id: string)
    ensures forall i :: 0 <= i < |Cleaned(id)| ==> Alphanumeric(Cleaned(id)[i])
  {
    if id == [] {
    } else {
      CleanedOk(id[1..]);
    }
  }

  lemma ShortOk(id: string)
    ensures ShortId(id) != [] && forall i :: 0 <= i < |ShortId(id)| ==> Alphanumeric(ShortId(id)[i])
  {
    CleanedOk(id);
  }

  /** A ticket's file name is found for exactly the ids that share its short id. */
  lemma MarkerExact(stamp: string, id: string, other: string)
    ensures Matches(TicketName(stamp, id), other) <==> ShortId(id) == ShortId(other)
  {
    var name, mine, theirs := TicketName(stamp, id), ShortId(id), ShortId(other);
    var marker := "_" + theirs + ".md";
    ShortOk(id);
    ShortOk(other);
    assert name == ("INBOX_" + stamp) + ("_" + mine + ".md");
    assert name[|name| - |mine| - 4] == '_' && name[|name| - |mine| - 3..|name| - 3] == mine;
    if mine == theirs { assert name[|name| - |marker|..] == marker && name[..6] == "INBOX_"; }
    if Matches(name, other) {
      assert marker[0] == '_' && name[|name| - |theirs| - 4] == '_';
      assert marker[1..|theirs| + 1] == theirs;
      assert name[|name| - |theirs| - 3..|name| - 3] == theirs;
      assert |mine| == |theirs|;
    }
  }

  // ---- the bridge ----

  datatype Kind = Ack | Seen
  datatype Reply = Reply(id: string, peer: string, kind: Kind)
  datatype State = State(baselined: bool, seen: seq<string>, pending: seq<Reply>)

  /** The allow-list, the routing of messages, the short id of a message, and the size of the seen window. */
  datatype Config = Config(allowed: set<string>, route: Message -> Route, short: string -> string, window: nat)

  /** What the running process is in the middle of; a crash loses it. */
  datatype Activity =
    | Down
    | Draining(queue: seq<Message>)                      // between two messages of a pass
    | Filed(message: Message, queue: seq<Message>)       // the ticket is written, the state is not
    | Logged(message: Message, queue: seq<Message>)      // the chat line is written, the state is not
    | Answered(reply: Reply)                             // the send succeeded, the state is not written

  /** The saved state, the tickets, the chat log; and what was polled, sent, and orphaned. */
  datatype World = World(
    saved: State, tickets: seq<Message>, chat: seq<Message>, doing: Activity,
    polled: seq<Message>, sent: seq<Reply>, orphans: set<string>)

  function Last<T>(s: seq<T>, n: nat): seq<T> { if |s| > n then s[|s| - n..] else s }

  predicate Fresh(c: Config, s: State, m: Message) { m.received && m.peer in c.allowed && m.id !in s.seen }

  predicate Ticketed(c: Config, tickets: seq<Message>, id: string) {
    exists t :: t in tickets && c.short(t.id) == c.short(id)
  }

  /** Remember a message as seen, within the window. */
  function Noticed(c: Config, s: State, id: string): State { s.(seen := Last(s.seen + [id], c.window)) }

  /** A dictionary entry set: replaced where it stands, or added at the end. */
  function Put(pending: seq<Reply>, r: Reply): seq<Reply> {
    if pending == [] then [r]
    else if pending[0].id == r.id then [r] + pending[1..]
    else [pending[0]] + Put(pending[1..], r)
  }

  function Polled(c: Config, w: World, queue: seq<Message>): World {
    if w.doing == Draining([]) && w.saved.baselined && forall m :: m in queue ==> Fresh(c, w.saved, m)
    then w.(doing := Draining(queue), polled := w.polled + queue) else w
  }

  /** The first run marks the whole history as seen. */
  function Baselined(c: Config, w: World, ids: seq<string>): World {
    if w.doing == Draining([]) && !w.saved.baselined
    then w.(saved := w.saved.(baselined := true, seen := Last(ids, c.window))) else w
  }

  /** The body of the drain loop up to its first durable effect. */
  function Taken(c: Config, w: World): World {
    if !w.doing.Draining? || w.doing.queue == [] then w
    else
      var m, queue := w.doing.queue[0], w.doing.queue[1..];
      var passed := w.(saved := Noticed(c, w.saved, m.id), doing := Draining(queue));
      if m.id == "" then w.(doing := Draining(queue))
      else if Ticketed(c, w.tickets, m.id) then passed
      else
        match c.route(m)
        case Ignored => passed
        case Housekeeping => passed
        case Handoff => w.(tickets := w.tickets + [m], doing := Filed(m, queue))
        case Chat => w.(chat := w.chat + [m], doing := Logged(m, queue))
  }

  /** Save the state after a ticket, a chat line or an answered reply. */
  function Committed(c: Config, w: World): World {
    match w.doing
    case Filed(m, queue) => Owed(c, w, m, Ack, queue)
    case Logged(m, queue) => Owed(c, w, m, Seen, queue)
    case Answered(r) => w.(saved := w.saved.(pending := Dropped(w.saved.pending, r.id)), doing := Draining([]))
    case _ => w
  }

  function Owed(c: Config, w: World, m: Message, kind: Kind, queue: seq<Message>): World {
    var s := Noticed(c, w.saved, m.id);
    w.(saved := s.(pending := Put(s.pending, Reply(m.id, m.peer, kind))), doing := Draining(queue))
  }

  function Dropped(pending: seq<Reply>, id: string): seq<Reply> {
    if pending == [] then [] else if pending[0].id == id then pending[1..] else [pending[0]] + Dropped(pending[1..], id)
  }

  /** Send the first outstanding reply; a send may be delivered without being confirmed. */
  function Sent(w: World, delivered: bool, confirmed: bool): World {
    if w.doing != Draining([]) || w.saved.pending == [] then w
    else
      var r := w.saved.pending[0];
      var told := if delivered || confirmed then w.(sent := w.sent + [r]) else w;
      if confirmed then told.(doing := Answered(r)) else told
  }

  /** A crash after the ticket is written leaves a ticket nobody will be told about. */
  function Crashed(w: World): World {
    w.(doing := Down, orphans := if w.doing.Filed? then w.orphans + {w.doing.message.id} else w.orphans)
  }

  function Acks(replies: seq<Reply>): set<string> { set r | r in replies && r.kind.Ack? :: r.id }

  /** The state file is lost while the bridge is down. */
  function Lost(w: World): World {
    if !w.doing.Down? then w
    else w.(saved := State(false, [], []), orphans := w.orphans + (Acks(w.saved.pending) - Acks(w.sent)))
  }

  datatype Step =
    | Boot
    | Baseline(ids: seq<string>)
    | Poll(queue: seq<Message>)
    | Take
    | Commit
    | Send(delivered: bool, confirmed: bool)
    | Crash
    | Lose

  function Next(c: Config, w: World, step: Step): World {
    match step
    case Boot => if w.doing.Down? then w.(doing := Draining([])) else w
    case Baseline(ids) => Baselined(c, w, ids)
    case Poll(queue) => Polled(c, w, queue)
    case Take => Taken(c, w)
    case Commit => Committed(c, w)
    case Send(delivered, confirmed) => Sent(w, delivered, confirmed)
    case Crash => Crashed(w)
    case Lose => Lost(w)
  }

  function After(c: Config, w: World, steps: seq<Step>): World
    decreases |steps|
  {
    if steps == [] then w else After(c, Next(c, w, steps[0]), steps[1..])
  }

  const START := World(State(false, [], []), [], [], Down, [], [], {})
}
