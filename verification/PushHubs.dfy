/** The registry that fans events out to its subscribers' queues. */
module PushHubs {
  import opened Wrappers
  import opened PushQueue

  class Subscriber {
    /** The channel: what is waiting in it, and whether it is closed. */
    var events: seq<PushEvent>
    var isClosed: bool
    ghost var published: seq<PushEvent>
    ghost var received: seq<nat>
    ghost var discarded: nat

    ghost function State(): Sub
      reads this
    {
      Sub(events, published, received, discarded, isClosed)
    }

    constructor ()
      ensures State() == JOINED
    {
      events, isClosed := [], false;
      published, received, discarded := [], [], 0;
    }

    /** A send to a closed channel would panic, so it must be open. */
    method TrySend(ev: PushEvent) returns (sent: bool)
      requires !isClosed
      modifies this`events
      ensures (State(), sent) == Offer(old(State()), ev)
    {
      sent := |events| < BUFFER_SIZE;
      if sent {
        events := events + [ev];
      }
    }

    method DiscardOldest()
      modifies this`events, this`discarded
      ensures State() == Discard(old(State()))
    {
      if events != [] {
        events := events[1..];
        discarded := discarded + 1;
      }
    }

    /** The consumer takes up to `n` waiting events, closed or not. */
    method Take(n: nat)
      requires Sound(State())
      modifies this`events, this`received
      ensures State() == Drain(old(State()), n)
    {
      hide Ascending;
      var i := 0;
      while i < n && events != []
        invariant i <= n && Drain(State(), n - i) == Drain(old(State()), n)
        invariant |events| <= |published|
        decreases n - i
      {
        received := received + [|published| - |events|];
        events := events[1..];
        i := i + 1;
      }
    }

    /** Closing a closed channel would panic. */
    method Close()
      requires !isClosed
      modifies this`isClosed
      ensures State() == old(State()).(closed := true)
    {
      isClosed := true;
    }
  }

  class PushHub {
    var subs: set<Subscriber>
    var closed: set<Subscriber>

    /** Registered channels are open, removed ones closed, and every queue is sound. */
    ghost predicate Valid()
      reads this, subs, closed
    {
      && subs !! closed
      && (forall s :: s in subs ==> !s.isClosed && Sound(s.State()))
      && (forall s :: s in closed ==> s.isClosed && Sound(s.State()))
    }

    constructor ()
      ensures Valid() && subs == {} && closed == {}
    {
      subs, closed := {}, {};
    }

    method Subscribe() returns (sub: Subscriber)
      requires Valid()
      modifies this`subs
      ensures Valid() && fresh(sub) && sub.State() == JOINED
      ensures subs == old(subs) + {sub} && closed == old(closed)
    {
      hide Sound;
      ghost var before := subs;
      sub := new Subscriber();
      JoinedIsSound();
      subs := subs + {sub};
      forall s | s in subs
        ensures !s.isClosed && Sound(s.State())
      {
        assert s == sub || s in before;
      }
    }

    /** Idempotent: a subscriber that is not registered is left alone. */
    method Unsubscribe(sub: Subscriber)
      requires Valid()
      modifies this, sub`isClosed
      ensures Valid()
      ensures subs == old(subs) - {sub} && closed == if sub in old(subs) then old(closed) + {sub} else old(closed)
      ensures sub.State() == if sub in old(subs) then old(sub.State()).(closed := true) else old(sub.State())
    {
      if sub !in subs {
        return;
      }
      subs := subs - {sub};
      closed := closed + {sub};
      sub.Close();
    }

    /** Queue the rendered event, if rendering gave one, to every subscriber, whatever each drains meanwhile. */
    method Notify(rendered: Option<PushEvent>, gaps: map<Subscriber, Gaps>)
      requires Valid()
      modifies subs
      ensures Valid()
      ensures rendered.None? ==> forall s :: s in subs ==> s.State() == old(s.State())
      ensures rendered.Some? ==>
                forall s :: s in subs ==> s.State() == Push(old(s.State()), rendered.value, GapsOf(gaps, s))
    {
      hide Push, Sound;
      if rendered.None? {
        return;
      }
      var todo := subs;
      while todo != {}
        invariant todo <= subs
        invariant forall s :: s in todo ==> s.State() == old(s.State())
        invariant forall s :: s in subs - todo ==>
                    s.State() == Push(old(s.State()), rendered.value, GapsOf(gaps, s))
        decreases todo
      {
        var sub :| sub in todo;
        Deliver(sub, rendered.value, GapsOf(gaps, sub));
        todo := todo - {sub};
      }
      forall s | s in subs
        ensures !s.isClosed && Sound(s.State())
      {
        PushKeepsNewest(old(s.State()), rendered.value, GapsOf(gaps, s));
      }
    }

    method Deliver(sub: Subscriber, ev: PushEvent, gaps: Gaps)
      requires !sub.isClosed && Sound(sub.State())
      modifies sub
      ensures sub.State() == Push(old(sub.State()), ev, gaps)
    {
      hide Drain, Sound;
      DrainSound(sub.State(), gaps.first);
      sub.Take(gaps.first);
      DrainSound(sub.State(), gaps.discard);
      var sent := sub.TrySend(ev);
      if !sent {
        sub.Take(gaps.discard);
        DiscardSound(sub.State());
        sub.DiscardOldest();
        DrainSound(sub.State(), gaps.second);
        sub.Take(gaps.second);
        sent := sub.TrySend(ev);
      }
      sub.published := sub.published + [ev];
    }
  }

  function GapsOf(gaps: map<Subscriber, Gaps>, sub: Subscriber): Gaps {
    if sub in gaps then gaps[sub] else Gaps(0, 0, 0)
  }
}
