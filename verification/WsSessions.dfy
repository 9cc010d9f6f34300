/** What reading a connection comes to: messages, closing, and requests that trickle in
    (src/fastapi_mojo_rs/src/bridge/io.rs). */
module WsSessions {
  import opened Wrappers
  import opened WsLoopSpec
  import opened WsLoopRuns

  // ---------- an open session ----------

  /** Input after which an open session goes on reading. */
  predicate Passes(f: Feed) {
    f == Grow(true) || f == Partial || (f.Control? && f.opcode != 8)
  }

  /** One pong for each ping. */
  function Pongs(fd: int, feeds: seq<Feed>): seq<Notice> {
    if feeds == [] then []
    else (if feeds[0] == Control(9) then [Pong(fd)] else []) + Pongs(fd, feeds[1..])
  }

  /** The close code, if any, that ends a session. */
  function Verdict(f: Feed): Option<nat> {
    match f
    case Eof => Some(1001)
    case Broken => Some(1002)
    case Grow(ok) => if ok then None else Some(1009)
    case Data(refusal) => refusal
    case _ => None
  }

  /** The connection is closed and its end event queued. */
  function Ended(w: World, i: nat): World
    requires i < |w.slots|
  {
    var e := Event(w.slots[i].fd, 2, i);
    w.(slots := w.slots[i := FREE], queue := w.queue + [e], pushed := w.pushed + [e])
  }

  /** What stops an open session: without input nothing happens; a message is queued and the
      session waits; a close frame is answered, anything wrong answered with its code, and then
      the session ends. */
  function Stopped(w: World, i: nat, stop: Feed): World
    requires i < |w.slots| && !Passes(stop)
  {
    var fd := w.slots[i].fd;
    if stop.Again? then w
    else if stop == Data(None) then
      w.(slots := w.slots[i := w.slots[i].(phase := 4)], queue := w.queue + [Event(fd, 1, i)],
         pushed := w.pushed + [Event(fd, 1, i)])
    else
      var said := if stop.Control? then CloseReply(fd) else CloseSent(fd, Verdict(stop).value);
      Ended(w.(notices := w.notices + [said]), i)
  }

  lemma StopMeans(w: World, i: nat, stop: Feed, more: seq<Feed>)
    requires i < |w.slots| && |w.queue| < WS_EV_MAX && !Passes(stop)
    ensures PumpSession(w, i, [stop] + more) == Stopped(w, i, stop)
  {
  }

  lemma {:induction false} PassingMeans(w: World, i: nat, passing: seq<Feed>, tail: seq<Feed>)
    requires i < |w.slots| && forall k :: 0 <= k < |passing| ==> Passes(passing[k])
    ensures PumpSession(w, i, passing + tail)
            == PumpSession(w.(notices := w.notices + Pongs(w.slots[i].fd, passing)), i, tail)
    decreases |passing|
  {
    hide PumpSession, Passes;
    if passing == [] {
      assert passing + tail == tail && w.notices + [] == w.notices;
    } else {
      var rest := passing[1..] + tail;
      FirstApart(passing, tail);
      PassMeans(w, i, passing[0], rest);
      var said := if passing[0] == Control(9) then [Pong(w.slots[i].fd)] else [];
      PassingMeans(w.(notices := w.notices + said), i, passing[1..], tail);
      Regroup(w.notices, said, Pongs(w.slots[i].fd, passing[1..]));
    }
  }

  lemma FirstApart(feeds: seq<Feed>, tail: seq<Feed>)
    requires feeds != []
    ensures feeds + tail == [feeds[0]] + (feeds[1..] + tail)
  {
  }

  lemma Regroup(a: seq<Notice>, b: seq<Notice>, c: seq<Notice>)
    ensures (a + b) + c == a + (b + c)
  {
  }

  /** What an open session makes of its input up to the first that stops it: it answers the
      pings before that. */
  lemma SessionMeans(w: World, i: nat, passing: seq<Feed>, stop: Feed, more: seq<Feed>)
    requires i < |w.slots| && |w.queue| < WS_EV_MAX
    requires (forall k :: 0 <= k < |passing| ==> Passes(passing[k])) && !Passes(stop)
    ensures PumpSession(w, i, passing + [stop] + more)
            == Stopped(w.(notices := w.notices + Pongs(w.slots[i].fd, passing)), i, stop)
  {
    hide PumpSession, Stopped, Passes;
    assert passing + [stop] + more == passing + ([stop] + more);
    PassingMeans(w, i, passing, [stop] + more);
    StopMeans(w.(notices := w.notices + Pongs(w.slots[i].fd, passing)), i, stop, more);
  }

  lemma PassMeans(w: World, i: nat, feed: Feed, rest: seq<Feed>)
    requires i < |w.slots| && Passes(feed)
    ensures var said := if feed == Control(9) then [Pong(w.slots[i].fd)] else [];
            PumpSession(w, i, [feed] + rest) == PumpSession(w.(notices := w.notices + said), i, rest)
  {
    hide EndSession, EndWith, QueueMessage;
    assert ([feed] + rest)[1..] == rest;
    assert w.notices + [] == w.notices;
  }

  /** A session whose message was taken care of delivers the next one. */
  lemma NextMessage(w: World, i: nat, passing: seq<Feed>, more: seq<Feed>, heard: bool, now: int)
    requires Inv(w) && i < |w.slots| && w.slots[i].inUse && w.slots[i].phase == 4 && Idle(w, i)
    requires forall k :: 0 <= k < |passing| ==> Passes(passing[k])
    ensures var fd := w.slots[i].fd;
            var w' := Handle(Handle(w, MessageDone, fd, now), PumpNow(passing + [Data(None)] + more, heard), fd, now);
            && |w'.slots| == |w.slots| && w'.queue == w.queue + [Event(fd, 1, i)]
            && w'.slots[i].inUse && w'.slots[i].fd == fd && w'.slots[i].phase == 4
  {
    hide PumpSession;
    QueueIsSmall(w);
    var fd := w.slots[i].fd;
    ItsSlot(w, i);
    var w1 := Handle(w, MessageDone, fd, now);
    assert w1 == SetPhase(w, i, 3);
    PhaseKeeps(w, i, w.slots[i].(phase := 3));
    ItsSlot(w1, i);
    var w2 := if heard then HeardSession(w1, i, now) else w1;
    SessionMeans(w2, i, passing, Data(None), more);
  }

  lemma ItsSlot(w: World, i: nat)
    requires Inv(w) && i < |w.slots| && w.slots[i].inUse
    ensures FindSlot(w.slots, w.slots[i].fd) == i
  {
    var j := FindSlot(w.slots, w.slots[i].fd);
    assert j < |w.slots|;
  }

  // ---------- after our close frame ----------

  predicate EndsClosing(f: Feed) {
    f.Eof? || f.Broken? || f == Grow(false) || f == Control(8)
  }

  /** After our close frame nothing is sent any more and no message delivered: the connection
      stays as it is, or ends, and that exactly if something ends it before input runs out. */
  lemma {:induction false} ClosingMeans(w: World, i: nat, feeds: seq<Feed>)
    requires i < |w.slots| && |w.queue| < WS_EV_MAX
    ensures PumpClosing(w, i, feeds)
            == if exists k :: 0 <= k < |feeds| && EndsClosing(feeds[k])
                              && forall j :: 0 <= j < k ==> !feeds[j].Again?
               then Ended(w, i) else w
    decreases |feeds|
  {
    if feeds != [] {
      var rest := feeds[1..];
      ClosingMeans(w, i, rest);
      if !feeds[0].Again? && !EndsClosing(feeds[0]) {
        if k :| 0 <= k < |feeds| && EndsClosing(feeds[k]) && forall j :: 0 <= j < k ==> !feeds[j].Again? {
          assert EndsClosing(rest[k - 1]);
          assert forall j :: 0 <= j < k - 1 ==> !rest[j].Again?;
        }
        if k :| 0 <= k < |rest| && EndsClosing(rest[k]) && forall j :: 0 <= j < k ==> !rest[j].Again? {
          assert EndsClosing(feeds[k + 1]);
          assert forall j :: 0 <= j < k + 1 ==> !feeds[j].Again?;
        }
      }
    }
  }

  // ---------- a request that trickles in ----------

  /** A read that does not complete the header or the body, and its time. */
  datatype Read = Read(heard: bool, now: int)

  function Trickle(w: World, i: nat, tries: seq<Read>): World
    requires i < |w.slots|
    decreases |tries|
  {
    if tries == [] then w
    else
      var w' := PumpHttp(w, i, Waiting, tries[0].heard, tries[0].now);
      Trickle(w', i, tries[1..])
  }

  /** The time of the last read that brought something. */
  function LastHeard(tries: seq<Read>, old_: int): int {
    if tries == [] then old_
    else LastHeard(tries[1..], if tries[0].heard then tries[0].now else old_)
  }

  /** However slowly a request comes in, its clock runs from its first byte: reading on moves
      only the time of the last byte. */
  lemma {:induction false} TrickleKeepsStart(w: World, i: nat, tries: seq<Read>)
    requires i < |w.slots| && w.slots[i].phase in {0, 1} && w.slots[i].timers.firstData != 0
    ensures var w' := Trickle(w, i, tries);
            && |w'.slots| == |w.slots|
            && w'.slots[i] == w.slots[i].(timers := w.slots[i].timers.(
                                          lastData := LastHeard(tries, w.slots[i].timers.lastData)))
            && w' == w.(slots := w'.slots)
    decreases |tries|
  {
    if tries != [] {
      TrickleKeepsStart(PumpHttp(w, i, Waiting, tries[0].heard, tries[0].now), i, tries[1..]);
    }
  }

  /** The first byte starts the clock, and so does a complete header. */
  lemma RequestStarts(w: World, i: nat, http: Http, heard: bool, now: int)
    requires i < |w.slots| && w.slots[i].phase == 0 && !http.Closed?
    ensures var t, t' := w.slots[i].timers, PumpHttp(w, i, http, heard, now).slots[i].timers;
            && (http.NeedsBody? || http.Ready? ==> t'.firstData == now && t'.lastData == now)
            && (http.Waiting? && heard && t.firstData == 0 ==> t'.firstData == now && t'.lastData == now)
            && (!heard && (http.Waiting? || http.Switched?) ==> t' == t)
            && t'.strikes == t.strikes && t'.closeAt == t.closeAt
  {
  }
}
