/** Fan-out of device snapshots to subscribers over bounded queues that drop their oldest event. */
module PushQueue {
  datatype BlockPatch = BlockPatch(selector: string, html: string)

  datatype PushEvent = PushEvent(deviceName: string, signals: string, blocks: seq<BlockPatch>)

  const BUFFER_SIZE := 16

  /**
   One subscriber: its channel, what was published since it joined, the indices
   of what its consumer received, how many events the hub discarded, and
   whether the channel is closed.
   */
  datatype Sub = Sub(queue: seq<PushEvent>, published: seq<PushEvent>, received: seq<nat>, discarded: nat, closed: bool)

  const JOINED := Sub([], [], [], 0, false)

  /** How much the consumer drains before the first send, before the discard, and before the second send. */
  datatype Gaps = Gaps(first: nat, discard: nat, second: nat)

  /** The consumer takes up to `n` events. */
  function Drain(s: Sub, n: nat): Sub
    decreases n
  {
    if n == 0 || s.queue == [] || |s.queue| > |s.published| then s
    else Drain(s.(queue := s.queue[1..], received := s.received + [|s.published| - |s.queue|]), n - 1)
  }

  /** The hub throws away the oldest waiting event, if there is one. */
  function Discard(s: Sub): Sub {
    if s.queue == [] then s else s.(queue := s.queue[1..], discarded := s.discarded + 1)
  }

  /** A send that does not wait. */
  function Offer(s: Sub, ev: PushEvent): (Sub, bool) {
    if |s.queue| < BUFFER_SIZE then (s.(queue := s.queue + [ev]), true) else (s, false)
  }

  /** The event reaches one subscriber: send, or else discard the oldest and send again. */
  function Push(s: Sub, ev: PushEvent, gaps: Gaps): Sub {
    var s1 := Drain(s, gaps.first);
    var (s2, sent) := Offer(s1, ev);
    var s3 := if sent then s2 else Offer(Drain(Discard(Drain(s1, gaps.discard)), gaps.second), ev).0;
    s3.(published := s.published + [ev])
  }

  datatype Action = Publish(ev: PushEvent, gaps: Gaps) | Receive(n: nat) | Close

  /** What happens to a subscriber; after it is closed it only drains. */
  function Act(s: Sub, a: Action): Sub {
    match a
    case Publish(ev, gaps) => if s.closed then s else Push(s, ev, gaps)
    case Receive(n) => Drain(s, n)
    case Close => s.(closed := true)
  }

  function ActAll(s: Sub, actions: seq<Action>): Sub
    decreases |actions|
  {
    if actions == [] then s else ActAll(Act(s, actions[0]), actions[1..])
  }

  // ---- what a subscriber can rely on ---------------------------------------------------------------

  ghost predicate Ascending(xs: seq<nat>, below: int) {
    && (forall i :: 0 <= i < |xs| ==> xs[i] < below)
    && (forall i, j :: 0 <= i < j < |xs| ==> xs[i] < xs[j])
  }

  /**
   The queue is a contiguous suffix of what was published, at most 16 long;
   events were received in order, each at most once; and every published event
   was received, was discarded, or is still waiting.
   */
  ghost predicate Sound(s: Sub) {
    && |s.queue| <= 16 && |s.queue| <= |s.published|
    && s.queue == s.published[|s.published| - |s.queue|..]
    && Ascending(s.received, |s.published| - |s.queue|)
    && |s.received| + s.discarded + |s.queue| == |s.published|
  }

  lemma {:induction false} DrainSound(s: Sub, n: nat)
    requires Sound(s)
    ensures var r := Drain(s, n);
            Sound(r) && r.published == s.published && r.discarded == s.discarded && r.closed == s.closed
            && |r.queue| == (if n < |s.queue| then |s.queue| - n else 0)
    decreases n
  {
    if n != 0 && s.queue != [] {
      DrainSound(s.(queue := s.queue[1..], received := s.received + [|s.published| - |s.queue|]), n - 1);
    }
  }

  lemma DiscardSound(s: Sub)
    requires Sound(s)
    ensures var r := Discard(s);
            Sound(r) && r.published == s.published && r.closed == s.closed
            && |r.queue| == (if s.queue == [] then 0 else |s.queue| - 1)
  {
  }

  lemma OfferSound(s: Sub, ev: PushEvent)
    requires Sound(s) && |s.queue| < BUFFER_SIZE
    ensures Sound(Offer(s, ev).0.(published := s.published + [ev]))
  {
  }

  /** However the consumer drains meanwhile, the event just published is waiting, last in the queue. */
  lemma PushKeepsNewest(s: Sub, ev: PushEvent, gaps: Gaps)
    requires Sound(s)
    ensures var r := Push(s, ev, gaps);
            Sound(r) && r.queue != [] && r.queue[|r.queue| - 1] == ev && r.published == s.published + [ev]
                && r.closed == s.closed
  {
    hide Drain;
    DrainSound(s, gaps.first);
    var s1 := Drain(s, gaps.first);
    if |s1.queue| < BUFFER_SIZE {
      OfferSound(s1, ev);
    } else {
      DrainSound(s1, gaps.discard);
      var s2 := Drain(s1, gaps.discard);
      DiscardSound(s2);
      DrainSound(Discard(s2), gaps.second);
      OfferSound(Drain(Discard(s2), gaps.second), ev);
    }
  }

  /** An event is discarded only on a push that finds 16 waiting, and then exactly one at most. */
  lemma DiscardsOnlyWhenFull(s: Sub, ev: PushEvent, gaps: Gaps)
    requires Sound(s)
    ensures var r := Push(s, ev, gaps);
            && s.discarded <= r.discarded <= s.discarded + 1
            && (r.discarded > s.discarded <==> |s.queue| == 16 && gaps.first == 0 && gaps.discard < 16)
  {
    hide Drain;
    DrainSound(s, gaps.first);
    var s1 := Drain(s, gaps.first);
    if |s1.queue| >= BUFFER_SIZE {
      DrainSound(s1, gaps.discard);
      DiscardSound(Drain(s1, gaps.discard));
      DrainSound(Discard(Drain(s1, gaps.discard)), gaps.second);
    }
  }

  lemma {:induction false} ActAllSound(s: Sub, actions: seq<Action>)
    requires Sound(s)
    ensures Sound(ActAll(s, actions))
    decreases |actions|
  {
    hide Sound, Drain, Push;
    if actions == [] {
    } else {
      match actions[0] {
        case Publish(ev, gaps) => PushKeepsNewest(s, ev, gaps);
        case Receive(n) => DrainSound(s, n);
        case Close => CloseSound(s);
      }
      ActAllSound(Act(s, actions[0]), actions[1..]);
    }
  }

  lemma CloseSound(s: Sub)
    requires Sound(s)
    ensures Sound(s.(closed := true))
  {
  }

  lemma JoinedIsSound()
    ensures Sound(JOINED)
  {
  }

  /** Under every interleaving of publishes, drains and a close, from the moment the subscriber joined. */
  lemma SubscriberIsSound(actions: seq<Action>)
    ensures Sound(ActAll(JOINED, actions))
  {
    JoinedIsSound();
    ActAllSound(JOINED, actions);
  }
}
