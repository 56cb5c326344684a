/** The subscriber table of the usage queue, with its loops: each method is one locked section, or
    the closing that follows one, and takes the step of `UsageSubscribers` that it stands for. */
module UsageHub {
  import opened Common
  import opened UsageSubscribers

  /** Whether the publishing loop has dealt with a channel, with `todo` still to visit. */
  predicate Visited(subscribers: map<Id, Ref>, todo: set<Id>, ref: Ref) {
    exists id :: id in subscribers && id !in todo && subscribers[id] == ref
  }

  /** The channels half way through the publishing loop. */
  function ChansBetween(s: System, todo: set<Id>, m: Message): seq<Chan> {
    seq(|s.chans|, ref requires 0 <= ref < |s.chans| =>
          if Visited(s.subscribers, todo, ref) then Delivered(s.chans[ref], m) else s.chans[ref])
  }

  /** The table half way through. */
  function TableBetween(s: System, todo: set<Id>): map<Id, Ref>
    requires forall id :: id in s.subscribers ==> s.subscribers[id] < |s.chans|
  {
    map id | id in s.subscribers && (id in todo || !Full(s.chans[s.subscribers[id]])) :: s.subscribers[id]
  }

  /** Visiting one subscriber touches its channel only, which nobody else has. */
  lemma VisitOne(s: System, todo: set<Id>, id: Id, m: Message)
    requires Owned(s) && id in s.subscribers && id in todo
    ensures var ref := s.subscribers[id];
            && ChansBetween(s, todo, m)[ref] == s.chans[ref]
            && ChansBetween(s, todo - {id}, m) == ChansBetween(s, todo, m)[ref := Delivered(s.chans[ref], m)]
            && TableBetween(s, todo - {id}) ==
               if Full(s.chans[ref]) then TableBetween(s, todo) - {id} else TableBetween(s, todo)
  {
    hide Delivered, Full;
    var ref := s.subscribers[id];
    assert Visited(s.subscribers, todo - {id}, ref) && !Visited(s.subscribers, todo, ref);
    forall r | 0 <= r < |s.chans| && r != ref
      ensures Visited(s.subscribers, todo - {id}, r) == Visited(s.subscribers, todo, r)
    {
    }
  }

  /** Nobody visited: nothing changed; everybody visited: the publication is done. */
  lemma VisitEnds(s: System, payload: Payload)
    requires Owned(s)
    ensures ChansBetween(s, s.subscribers.Keys, Published(s.calls, payload)) == s.chans
    ensures TableBetween(s, s.subscribers.Keys) == s.subscribers
    ensures ChansBetween(s, {}, Published(s.calls, payload)) == Publish(s, payload).chans
    ensures TableBetween(s, {}) == Publish(s, payload).subscribers
  {
    hide Delivered, Full;
    forall ref | 0 <= ref < |s.chans| ensures Visited(s.subscribers, {}, ref) == Subscribed(s, ref) {}
  }

  /** What a publishing call does, and the ends of its loop. */
  lemma PublishingCall(s: System, payload: Payload, enqueue: bool)
    requires Inv(s)
    ensures var step, some, m := PublishPayload(payload, enqueue), s.subscribers != map[], Published(s.calls, payload);
            && Owned(s) && OpenWhereOwned(s) && Enabled(s, step)
            && Take(s, step).calls == s.calls + 1 && Take(s, step).nextId == s.nextId
            && |Take(s, step).log| == |s.log| + (if some then 1 else 0)
            && Take(s, step).chans == (if some then ChansBetween(s, {}, m) else s.chans)
            && Take(s, step).subscribers == (if some then TableBetween(s, {}) else s.subscribers)
            && ChansBetween(s, s.subscribers.Keys, m) == s.chans && TableBetween(s, s.subscribers.Keys) == s.subscribers
  {
    VisitEnds(s, payload);
    hide Full, Delivered, Visited, Subscribed;
  }

  class Hub {
    var chans: seq<Chan>             // the channels made so far
    var subscribers: map<Id, Ref>
    var nextSubscriberID: Id
    var calls: nat                   // publishing calls so far, and those that found a subscriber:
    var publications: nat            // kept only to number messages and to date channels

    /** The system that all threads share; the fields above are its concrete part. */
    ghost var system: System

    /** The fields are the concrete part of `system`. Every method takes a step from a state with `Inv`,
        which `StepKeeps` carries on. */
    ghost predicate Valid()
      reads this
    {
      && system.chans == chans && system.subscribers == subscribers && system.nextId == nextSubscriberID
      && system.calls == calls && |system.log| == publications
    }

    constructor ()
      ensures Valid() && system == START
    {
      chans, subscribers, nextSubscriberID, calls, publications, system := [], map[], 0, 0, 0, START;
    }

    /** `subscribeUsage`, before the lock. */
    method MakeSubscriber() returns (ref: Ref)
      requires Valid() && Inv(system)
      modifies this
      ensures Valid() && system == Take(old(system), MakeChannel) && ref in system.unjoined
    {
      system := Take(system, MakeChannel);
      hide Inv;
      ref := |chans|;
      chans := chans + [Chan([SupportRefresh], [], false, 0)];
    }

    /** `subscribeUsage`, under the lock. */
    method SubscribeLocked(ref: Ref) returns (id: Id)
      requires Valid() && Inv(system) && Enabled(system, JoinTable(ref))
      modifies this
      ensures Valid() && system == Take(old(system), JoinTable(ref))
      ensures id !in old(subscribers) && subscribers == old(subscribers)[id := ref]
    {
      assert Owned(system);
      system := Take(system, JoinTable(ref));
      hide Inv;
      nextSubscriberID := nextSubscriberID + 1;
      id := nextSubscriberID;
      subscribers := subscribers[id := ref];
      chans := chans[ref := chans[ref].(joined := publications)];
    }

    /** `publishToSubscribers`: every subscriber is offered the payload, in any order; one whose buffer
        is full is dropped and its channel closed. No send and no close meets a closed channel. */
    method PublishToSubscribers(payload: Payload, enqueue: bool) returns (ok: bool)
      requires Valid() && Inv(system)
      modifies this
      ensures Valid() && system == Take(old(system), PublishPayload(payload, enqueue))
      ensures ok == (old(subscribers) != map[])
    {
      hide Inv, Owned, OpenWhereOwned, Streams, Conserved, Accounted, Full, Delivered, Take, Enabled, Publish, PublishNone, ChansBetween, TableBetween;
      PublishingCall(system, payload, enqueue);
      ok := |subscribers| != 0;
      if ok {
        OfferAll(Published(calls, payload));
        publications := publications + 1;
      }
      calls := calls + 1;
      system := Take(system, PublishPayload(payload, enqueue));
    }

    /** The publishing loop. */
    method OfferAll(m: Message)
      requires system.chans == chans && system.subscribers == subscribers && Owned(system) && OpenWhereOwned(system)
      requires ChansBetween(system, subscribers.Keys, m) == chans && TableBetween(system, subscribers.Keys) == subscribers
      modifies this`chans, this`subscribers
      ensures chans == ChansBetween(system, {}, m) && subscribers == TableBetween(system, {})
    {
      var todo := subscribers.Keys;
      hide Full, Delivered;
      while todo != {}
        invariant todo <= system.subscribers.Keys
        invariant chans == ChansBetween(system, todo, m) && subscribers == TableBetween(system, todo)
        decreases todo
      {
        var id :| id in todo;
        VisitOne(system, todo, id, m);
        var sent := Offer(subscribers[id], m);
        if !sent {
          subscribers := subscribers - {id};
        }
        todo := todo - {id};
      }
    }

    /** The `select` of the publishing loop: send if there is room, close if not. */
    method Offer(ref: Ref, m: Message) returns (sent: bool)
      requires ref < |chans| && !chans[ref].closed
      modifies this`chans
      ensures chans == old(chans)[ref := Delivered(old(chans)[ref], m)] && sent == !Full(old(chans)[ref])
    {
      var c := chans[ref];
      sent := |c.buffer| < BUFFER;
      if sent {
        chans := chans[ref := c.(buffer := c.buffer + [m])];
      } else {
        chans := chans[ref := c.(closed := true)];
      }
    }

    /** `unsubscribeUsage`, under the lock. */
    method UnsubscribeLocked(id: Id) returns (subscriber: Option<Ref>)
      requires Valid() && Inv(system)
      modifies this
      ensures Valid() && system == Take(old(system), LeaveTable(id))
      ensures subscriber == if id in old(subscribers) then Some(old(subscribers)[id]) else None
    {
      system := Take(system, LeaveTable(id));
      hide Inv;
      subscriber := None;
      if id in subscribers {
        subscriber := Some(subscribers[id]);
        subscribers := subscribers - {id};
      }
    }

    /** `clear`, under the lock: hands every subscriber to the caller, once. */
    method ClearLocked() returns (taken: seq<Ref>)
      requires Valid() && Inv(system)
      modifies this
      ensures Valid() && system == Take(old(system), ClearTable) && subscribers == map[]
      ensures forall ref :: ref in taken <==> ref in old(subscribers).Values
      ensures forall i, j :: 0 <= i < j < |taken| ==> taken[i] != taken[j]
    {
      assert Owned(system);
      ghost var before := system;
      system := Take(system, ClearTable);
      hide Inv;
      taken := [];
      var todo := subscribers.Keys;
      while todo != {}
        invariant todo <= subscribers.Keys && subscribers == before.subscribers
        invariant forall ref :: ref in taken <==> Visited(subscribers, todo, ref)
        invariant forall i, j :: 0 <= i < j < |taken| ==> taken[i] != taken[j]
        decreases todo
      {
        var id :| id in todo;
        var ref := subscribers[id];
        assert !Visited(subscribers, todo, ref);
        ghost var todo' := todo;
        todo := todo - {id};
        taken := taken + [ref];
        assert Visited(subscribers, todo, ref);
        assert forall r :: r != ref ==> Visited(subscribers, todo, r) == Visited(subscribers, todo', r);
      }
      assert forall ref :: ref in subscribers.Values <==> Visited(subscribers, {}, ref);
      subscribers := map[];
    }

    /** `close`, after the lock: the channel is still open. */
    method Close(ref: Ref)
      requires Valid() && Inv(system) && Enabled(system, CloseChannel(ref))
      modifies this
      ensures Valid() && system == Take(old(system), CloseChannel(ref))
      ensures !old(chans)[ref].closed && chans == old(chans)[ref := old(chans)[ref].(closed := true)]
    {
      assert OpenWhereOwned(system);
      system := Take(system, CloseChannel(ref));
      hide Inv;
      chans := chans[ref := chans[ref].(closed := true)];
    }
  }
}
