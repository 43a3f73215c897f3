/**
 The reconnecting relay (`background.ts` over `native-messaging.ts`): messages
 are posted while the native port is connected, queued while it is not, and the
 queue is drained on reconnect.  Whether each connect holds and at which points
 the port drops, also in the middle of a drain, is an arbitrary input.
 */
module Relay {
  import opened Common

  const MAX_DISCONNECT_QUEUE := 100
  const RESEND_BUFFER_SIZE := 50

  datatype Message = Message(kind: string, tabId: int, url: string, payload: string)

  /** A posted message: relayed from a content script, or the extension's own. */
  datatype Body = Relayed(message: Message) | Own(kind: string)

  datatype Wire = Wire(seqNo: nat, body: Body)

  // ------------------------------------------------------ the specification

  /** What the relay is about: the relayed messages posted so far and the queue. */
  datatype Line = Line(posted: seq<Message>, queue: seq<Message>, connected: bool)

  /** The queue lost its oldest message to `m`: it was full and no connect held. */
  ghost predicate Overflow(before: Line, m: Message, after: Line) {
    && |before.queue| == 100 && !after.connected
    && after.posted == before.posted && after.queue == before.queue[1..] + [m]
  }

  /** Forwarding `m`: nothing overtakes, nothing is repeated, nothing is lost but by overflow. */
  ghost predicate Forwards(before: Line, m: Message, after: Line) {
    && |after.queue| <= MAX_DISCONNECT_QUEUE
    && before.posted <= after.posted
    && (|| after.posted + after.queue == before.posted + before.queue + [m]
        || Overflow(before, m, after))
    && (after.connected ==> after.queue == [])
  }

  /** Everything else (reconnecting, the alarm, a drop, the extension's own messages). */
  ghost predicate Keeps(before: Line, after: Line) {
    && |after.queue| <= MAX_DISCONNECT_QUEUE
    && before.posted <= after.posted
    && after.posted + after.queue == before.posted + before.queue
    && (after.connected ==> after.queue == [])
  }

  lemma PostedForwards(before: Line, middle: Line, m: Message, after: Line)
    requires Keeps(before, middle) && middle.queue == after.queue == []
    requires after.posted == middle.posted + [m]
    ensures Forwards(before, m, after)
  {
  }

  /** A drop right after the post changes nothing. */
  lemma DropForwards(before: Line, m: Message, after: Line)
    requires Forwards(before, m, after)
    ensures Forwards(before, m, after.(connected := false)) && after.(connected := after.connected) == after
  {
  }

  lemma QueuedForwards(before: Line, middle: Line, m: Message, after: Line)
    requires Keeps(before, middle) && |before.queue| <= MAX_DISCONNECT_QUEUE
    requires after.posted == middle.posted && !after.connected
    requires after.queue == (if |middle.queue| >= MAX_DISCONNECT_QUEUE then middle.queue[1..] else middle.queue) + [m]
    ensures Forwards(before, m, after) && |middle.queue| <= |before.queue|
  {
    assert |middle.posted| + |middle.queue| == |before.posted| + |before.queue|;
    if |middle.queue| >= MAX_DISCONNECT_QUEUE {
      assert middle.posted == before.posted;
      assert (middle.posted + middle.queue)[|middle.posted|..] == middle.queue;
      assert (before.posted + before.queue)[|before.posted|..] == before.queue;
    }
  }

  /** `idx` picks the messages of `kept` out of `all`, in order and each once. */
  ghost predicate Picks(all: seq<Message>, kept: seq<Message>, idx: seq<nat>) {
    && |idx| == |kept|
    && (forall i | 0 <= i < |idx| :: idx[i] < |all| && all[idx[i]] == kept[i])
    && (forall i, j | 0 <= i < j < |idx| :: idx[i] < idx[j])
  }

  ghost predicate Subsequence(all: seq<Message>, kept: seq<Message>) {
    exists idx: seq<nat> :: Picks(all, kept, idx)
  }

  /** `lines` are the relay's states over a run; step `k` forwards `asked[k]`, or nothing. */
  ghost predicate IsRun(lines: seq<Line>, asked: seq<Option<Message>>) {
    && |lines| == |asked| + 1
    && lines[0].posted == [] && lines[0].queue == []
    && forall k | 0 <= k < |asked| ::
         if asked[k].Some? then Forwards(lines[k], asked[k].value, lines[k + 1]) else Keeps(lines[k], lines[k + 1])
  }

  ghost function Forwarded(asked: seq<Option<Message>>, k: nat): seq<Message>
    requires k <= |asked|
  {
    if k == 0 then [] else Forwarded(asked, k - 1) + if asked[k - 1].Some? then [asked[k - 1].value] else []
  }

  lemma PickMore(all: seq<Message>, kept: seq<Message>, idx: seq<nat>, m: Message)
    requires Picks(all, kept, idx)
    ensures Picks(all + [m], kept + [m], idx + [|all|])
  {
  }

  lemma PickWithout(all: seq<Message>, kept: seq<Message>, idx: seq<nat>, at: nat)
    requires Picks(all, kept, idx) && at < |kept|
    ensures Picks(all, kept[..at] + kept[at + 1..], idx[..at] + idx[at + 1..])
  {
  }

  /** Over every run, what was posted followed by the queue is an in-order
      selection of the forwarded messages, none twice. */
  lemma {:induction false} RelayInOrder(lines: seq<Line>, asked: seq<Option<Message>>, k: nat)
    requires IsRun(lines, asked) && k <= |asked|
    ensures Subsequence(Forwarded(asked, k), lines[k].posted + lines[k].queue)
    ensures |lines[k].queue| <= MAX_DISCONNECT_QUEUE
    decreases k
  {
    if k == 0 {
      assert Picks(Forwarded(asked, 0), lines[0].posted + lines[0].queue, []);
    } else {
      RelayInOrder(lines, asked, k - 1);
      var before, after, all := lines[k - 1], lines[k - 1 + 1], Forwarded(asked, k - 1);
      var kept := before.posted + before.queue;
      var idx: seq<nat> :| Picks(all, kept, idx);
      match asked[k - 1] {
        case None =>
          assert Forwarded(asked, k) == all;
          assert Picks(all, after.posted + after.queue, idx);
        case Some(m) =>
          if Overflow(before, m, after) {
            var at := |before.posted|;
            PickWithout(all, kept, idx, at);
            assert kept[..at] + kept[at + 1..] == before.posted + before.queue[1..];
            PickMore(all, before.posted + before.queue[1..], idx[..at] + idx[at + 1..], m);
            assert before.posted + before.queue[1..] + [m] == after.posted + after.queue;
          } else {
            PickMore(all, kept, idx, m);
          }
      }
    }
  }

  /** Without an overflow nothing forwarded is lost. */
  lemma {:induction false} NothingLost(lines: seq<Line>, asked: seq<Option<Message>>, k: nat)
    requires IsRun(lines, asked) && k <= |asked|
    requires forall i | 0 <= i < k && asked[i].Some? :: !Overflow(lines[i], asked[i].value, lines[i + 1])
    ensures lines[k].posted + lines[k].queue == Forwarded(asked, k)
    decreases k
  {
    if k > 0 {
      NothingLost(lines, asked, k - 1);
      assert if asked[k - 1].Some? then Forwards(lines[k - 1], asked[k - 1].value, lines[k - 1 + 1]) else Keeps(lines[k - 1], lines[k - 1 + 1]);
    }
  }

  // ---------------------------------------------------------------- the relay

  /** The relayed messages of what was posted. */
  function RelayedOf(wire: seq<Wire>): seq<Message> {
    if wire == [] then [] else
      var n := |wire| - 1;
      RelayedOf(wire[..n]) + if wire[n].body.Relayed? then [wire[n].body.message] else []
  }

  /** What can come at the worker, one after another. */
  datatype Event = Forward(message: Message) | Alarm | Ready | Ping | Drop

  function Asked(script: seq<Event>): (asked: seq<Option<Message>>)
    ensures |asked| == |script|
    ensures forall k | 0 <= k < |script| :: asked[k] == if script[k].Forward? then Some(script[k].message) else None
  {
    seq(|script|, k requires 0 <= k < |script| => if script[k].Forward? then Some(script[k].message) else None)
  }

  /** What the browser does at the next point where it matters: let things be (a connect
      holds, a port stays), refuse a connect, or drop the port. */
  datatype Fate = Calm | Refuse | Lose

  /** The worker's module state and, as `wire`, what it has posted; `fates` is what the
      browser is still to do, and when they are spent it lets things be. */
  class Background {
    var connected: bool
    var messageSeq: nat
    var sentBuffer: seq<Wire>
    var disconnectQueue: seq<Message>
    var listeners: set<nat>
    var unsubscribe: Option<nat>
    var nextListener: nat
    var fates: seq<Fate>
    ghost var wire: seq<Wire>

    ghost predicate Valid()
      reads this
    {
      && |disconnectQueue| <= MAX_DISCONNECT_QUEUE
      && messageSeq == |wire| && Numbered(wire)
      && |sentBuffer| <= RESEND_BUFFER_SIZE && LastPosts(sentBuffer, wire)
      && listeners == (match unsubscribe case None => {} case Some(id) => {id})
      && (connected ==> unsubscribe.Some?)
    }

    static ghost predicate Numbered(wire: seq<Wire>) { forall i | 0 <= i < |wire| :: wire[i].seqNo == i + 1 }

    static ghost predicate LastPosts(buffer: seq<Wire>, wire: seq<Wire>) {
      |buffer| <= |wire| && buffer == wire[|wire| - |buffer|..]
    }

    ghost function View(): Line
      reads this
    {
      Line(RelayedOf(wire), disconnectQueue, connected)
    }

    constructor (fates: seq<Fate>)
      ensures Valid() && View() == Line([], [], false) && this.fates == fates
    {
      this.fates := fates;
      connected, messageSeq, sentBuffer, disconnectQueue := false, 0, [], [];
      listeners, unsubscribe, nextListener := {}, None, 0;
      wire := [];
    }

    static function FateAt(fates: seq<Fate>, k: nat): Fate { if k < |fates| then fates[k] else Calm }

    static function Later(fates: seq<Fate>): (later: seq<Fate>)
      ensures forall k: nat :: FateAt(later, k) == FateAt(fates, k + 1)
    {
      if fates == [] then [] else fates[1..]
    }

    /** The next thing the browser does. */
    method NextFate() returns (fate: Fate)
      modifies this`fates
      ensures fate == FateAt(old(fates), 0) && fates == Later(old(fates))
    {
      fate := Calm;
      if fates != [] {
        fate, fates := fates[0], fates[1..];
      }
    }

    /** A point where the port may drop. */
    method MayDrop()
      requires Valid()
      modifies this`connected, this`fates
      ensures Valid() && connected == (old(connected) && FateAt(old(fates), 0) != Lose) && fates == Later(old(fates))
    {
      var fate := NextFate();
      if fate == Lose {
        connected := false;
      }
    }

    /** How many messages the resend buffer holds after some more posts. */
    static function Held(before: nat, posts: nat): nat { if before + posts <= 50 then before + posts else 50 }

    /** The last posts and one more are the last posts again. */
    static lemma OneMorePost(wire: seq<Wire>, last: seq<Wire>, message: Wire)
      requires LastPosts(last, wire) && Numbered(wire) && message.seqNo == |wire| + 1
      ensures LastPosts(last + [message], wire + [message]) && LastPosts((last + [message])[1..], wire + [message])
      ensures LastPosts([], wire) && Numbered(wire + [message]) && (wire + [message])[..|wire|] == wire
    {
      assert last + [message] == (wire + [message])[|wire| - |last|..];
    }

    static lemma NoPostIsLast(wire: seq<Wire>)
      ensures LastPosts([], wire)
    {
    }

    /** `sendToNative`, which throws when there is no port. */
    method SendToNative(body: Body)
      requires Valid() && connected
      modifies this
      ensures Valid() && connected && disconnectQueue == old(disconnectQueue) && fates == old(fates)
      ensures wire == old(wire) + [Wire(old(messageSeq) + 1, body)] && |sentBuffer| == Held(|old(sentBuffer)|, 1)
      ensures View().posted == old(View().posted) + if body.Relayed? then [body.message] else []
    {
      hide LastPosts, Numbered;
      messageSeq := messageSeq + 1;
      var message := Wire(messageSeq, body);
      OneMorePost(wire, sentBuffer, message);
      sentBuffer := sentBuffer + [message];
      if |sentBuffer| > RESEND_BUFFER_SIZE {
        sentBuffer := sentBuffer[1..];
      }
      wire := wire + [message];
    }

    /** `initNativeConnection`: connect unless connected, then drain the queue.  A refused
        connect changes nothing; one that holds, with no drop, posts the whole queue, and
        its resend buffer holds nothing from before. */
    method InitNativeConnection()
      requires Valid() && (connected ==> disconnectQueue == [])
      modifies this
      ensures Valid() && Keeps(old(View()), View()) && old(wire) <= wire
      ensures old(connected) || FateAt(old(fates), 0) == Refuse ==> View() == old(View()) && wire == old(wire)
      ensures old(connected) ==> fates == old(fates)
      ensures !old(connected) && FateAt(old(fates), 0) == Refuse ==> fates == Later(old(fates))
      ensures old(fates) == [] ==> fates == [] && connected && disconnectQueue == []
      ensures old(fates) == [] ==> View().posted == old(View().posted) + old(disconnectQueue)
      ensures old(fates) == [] && !old(connected) ==> |sentBuffer| == Held(0, |wire| - |old(wire)|)
      ensures FateAt(old(fates), 1) == Lose && !old(connected) && old(disconnectQueue) == [] ==> !connected
      decreases |disconnectQueue|, 1
    {
      hide RelayedOf, Held, LastPosts, Numbered;
      NoPostIsLast(wire);
      if connected {
        return;
      }
      listeners, unsubscribe := match unsubscribe case None => listeners case Some(id) => listeners - {id}, None;
      var fate := NextFate();
      if fate == Refuse {
        return;
      }
      connected := true;
      listeners, unsubscribe, nextListener := listeners + {nextListener}, Some(nextListener), nextListener + 1;
      sentBuffer := [];
      MayDrop();
      DrainDisconnectQueue();
    }

    /** `drainDisconnectQueue`: forward again what was queued.  Each nested drain
        finds fewer messages than this one, so none of them overflows. */
    method DrainDisconnectQueue()
      requires Valid()
      modifies this
      ensures Valid() && Keeps(old(View()), View()) && old(wire) <= wire
      ensures old(connected) && old(fates) == [] ==>
                && fates == [] && connected && disconnectQueue == [] && View().posted == old(View().posted) + old(disconnectQueue)
                && |sentBuffer| == Held(|old(sentBuffer)|, |wire| - |old(wire)|)
      ensures old(disconnectQueue) == [] ==> View() == old(View()) && wire == old(wire) && fates == old(fates)
      decreases |disconnectQueue|, 0
    {
      hide RelayedOf, LastPosts, Numbered;
      if disconnectQueue == [] {
        return;
      }
      var pending := disconnectQueue;
      disconnectQueue := [];
      for i := 0 to |pending|
        invariant Valid() && (connected ==> disconnectQueue == [])
        invariant old(View().posted) <= View().posted && old(wire) <= wire
        invariant View().posted + disconnectQueue == old(View().posted) + pending[..i]
        invariant |disconnectQueue| <= i
        invariant old(connected) && old(fates) == [] ==>
                    fates == [] && connected && |sentBuffer| == Held(|old(sentBuffer)|, |wire| - |old(wire)|)
      {
        ForwardToDaemon(pending[i]);
      }
    }

    /** One more in the queue, the oldest dropped when it is full. */
    method Enqueue(m: Message)
      requires Valid() && !connected
      modifies this`disconnectQueue
      ensures Valid()
      ensures disconnectQueue == (if |old(disconnectQueue)| >= MAX_DISCONNECT_QUEUE then old(disconnectQueue)[1..] else old(disconnectQueue)) + [m]
    {
      if |disconnectQueue| >= MAX_DISCONNECT_QUEUE {
        disconnectQueue := disconnectQueue[1..];
      }
      disconnectQueue := disconnectQueue + [m];
    }

    /** `forwardToDaemon`: reconnect if needed, then post or queue.  With the port lost and
        the connect refused the message is queued; so it is when the port drops right
        before the post, while a drop right after comes too late. */
    method ForwardToDaemon(m: Message)
      requires Valid() && (connected ==> disconnectQueue == [])
      modifies this
      ensures Valid() && Forwards(old(View()), m, View()) && old(wire) <= wire
      ensures |disconnectQueue| <= |old(disconnectQueue)| + 1
      ensures old(fates) == [] ==> fates == [] && connected && disconnectQueue == []
      ensures old(fates) == [] ==> View().posted == old(View().posted) + old(disconnectQueue) + [m]
      ensures old(fates) == [] && old(connected) ==> |sentBuffer| == Held(|old(sentBuffer)|, |wire| - |old(wire)|)
      ensures (FateAt(old(fates), 0) == Lose && FateAt(old(fates), 1) == Refuse) || (old(connected) && FateAt(old(fates), 0) == Calm && FateAt(old(fates), 1) == Lose) ==>
                && !connected && wire == old(wire)
                && disconnectQueue == (if |old(disconnectQueue)| == 100 then old(disconnectQueue)[1..] else old(disconnectQueue)) + [m]
      ensures old(connected) && FateAt(old(fates), 0) == FateAt(old(fates), 1) == Calm && FateAt(old(fates), 2) == Lose ==> !connected && wire == old(wire) + [Wire(old(messageSeq) + 1, Relayed(m))]
      decreases |disconnectQueue|, 2
    {
      hide RelayedOf, Forwards, LastPosts, Numbered;
      MayDrop();
      if !connected {
        InitNativeConnection();
      }
      MayDrop();
      ghost var middle := View();
      assert Keeps(old(View()), middle);
      if !connected {
        Enqueue(m);
        QueuedForwards(old(View()), middle, m, View());
        return;
      }
      SendToNative(Relayed(m));
      PostedForwards(old(View()), middle, m, View());
      DropForwards(old(View()), m, View());
      ghost var posted := View();
      MayDrop();
      assert View() == posted.(connected := connected);
    }

    /** A content script is ready: connect, and, when connected, say so last of all. */
    method OnContentReady()
      requires Valid() && (connected ==> disconnectQueue == [])
      modifies this
      ensures Valid() && Keeps(old(View()), View()) && old(wire) <= wire
      ensures connected ==> |wire| > |old(wire)| && wire[|wire| - 1].body == Own("content_ready")
      ensures old(fates) == [] ==> fates == [] && connected && View().posted == old(View().posted) + old(disconnectQueue)
      ensures FateAt(old(fates), 0) == Lose && FateAt(old(fates), 1) == Refuse ==> !connected && wire == old(wire)
      ensures old(connected) && FateAt(old(fates), 0) == Calm && FateAt(old(fates), 1) == Lose ==> !connected && wire == old(wire)
    {
      hide RelayedOf, LastPosts, Numbered;
      MayDrop();
      InitNativeConnection();
      MayDrop();
      if connected {
        SendToNative(Own("content_ready"));
      }
    }

    /** A ping of the daemon, answered on the port it came from. */
    method OnPing()
      requires Valid() && connected && disconnectQueue == []
      modifies this
      ensures Valid() && Keeps(old(View()), View())
      ensures wire == old(wire) + [Wire(old(messageSeq) + 1, Own("pong"))]
      ensures connected <==> FateAt(old(fates), 0) != Lose
      ensures fates == Later(old(fates))
    {
      hide RelayedOf, LastPosts, Numbered;
      SendToNative(Own("pong"));
      MayDrop();
    }

    /** The reconnect alarm. */
    method OnAlarm()
      requires Valid() && (connected ==> disconnectQueue == [])
      modifies this
      ensures Valid() && Keeps(old(View()), View()) && old(wire) <= wire
      ensures old(fates) == [] ==> fates == [] && connected && View().posted == old(View().posted) + old(disconnectQueue)
      ensures FateAt(old(fates), 0) == Lose && FateAt(old(fates), 1) == Refuse ==> !connected && wire == old(wire)
    {
      hide RelayedOf, LastPosts, Numbered;
      MayDrop();
      if !connected {
        InitNativeConnection();
      }
    }

    /** One event.  A ping comes over the port, so only while there is one. */
    method Take(event: Event)
      requires Valid() && (connected ==> disconnectQueue == [])
      modifies this
      ensures Valid() && (connected ==> disconnectQueue == [])
      ensures if event.Forward? then Forwards(old(View()), event.message, View()) else Keeps(old(View()), View())
      ensures old(fates) == [] && old(disconnectQueue) == [] ==>
                && fates == [] && disconnectQueue == []
                && View().posted == old(View().posted) + if event.Forward? then [event.message] else []
      ensures event.Drop? ==> !connected && wire == old(wire) && disconnectQueue == old(disconnectQueue)
      ensures event.Ping? && old(connected) ==> wire == old(wire) + [Wire(old(messageSeq) + 1, Own("pong"))]
      ensures event.Ready? && connected ==> |wire| > |old(wire)| && wire[|wire| - 1].body == Own("content_ready")
      ensures event.Alarm? || event.Ready? ==> old(fates) == [] ==> connected && View().posted == old(View().posted) + old(disconnectQueue)
    {
      hide RelayedOf, LastPosts, Numbered;
      match event {
        case Forward(m) => ForwardToDaemon(m);
        case Alarm => OnAlarm();
        case Ready => OnContentReady();
        case Ping => if connected { OnPing(); }
        case Drop => connected := false;
      }
    }
  }

  /** The worker through any sequence of events and of what the browser does, from its
      start: its states are a run, so what holds of runs holds of it.  When every connect
      holds and the port drops only between events, every message is posted at once. */
  method Play(script: seq<Event>, fates: seq<Fate>) returns (ghost lines: seq<Line>, worker: Background)
    ensures IsRun(lines, Asked(script)) && lines[|script|] == worker.View()
    ensures Subsequence(Forwarded(Asked(script), |script|), worker.View().posted + worker.View().queue)
    ensures worker.View().connected ==> worker.View().queue == []
    ensures fates == [] ==> worker.View().posted == Forwarded(Asked(script), |script|) && worker.View().queue == []
  {
    hide RelayedOf;
    worker := new Background(fates);
    lines := [worker.View()];
    var asked := Asked(script);
    assert asked[..0] == [];
    for k := 0 to |script|
      invariant worker.Valid() && (worker.connected ==> worker.disconnectQueue == [])
      invariant IsRun(lines, asked[..k]) && lines[k] == worker.View()
      invariant fates == [] ==> worker.fates == [] && worker.disconnectQueue == [] && worker.View().posted == Forwarded(asked, k)
    {
      worker.Take(script[k]);
      RunGoesOn(lines, asked[..k], asked[k], worker.View());
      assert asked[..k] + [asked[k]] == asked[..k + 1];
      lines := lines + [worker.View()];
    }
    assert asked[..|script|] == asked;
    RelayInOrder(lines, asked, |script|);
  }

  lemma RunGoesOn(lines: seq<Line>, asked: seq<Option<Message>>, ask: Option<Message>, next: Line)
    requires IsRun(lines, asked)
    requires if ask.Some? then Forwards(lines[|asked|], ask.value, next) else Keeps(lines[|asked|], next)
    ensures IsRun(lines + [next], asked + [ask])
  {
    hide Forwards, Keeps;
  }
}
