/** The registry of message handlers: a map from message type to a mutable set of handlers. */
module HandlerRegistry {

  type MessageType = string
  // a handler is known by its identity alone
  type Handler = nat

  /** One of the `Set` objects that the map holds, updated in place. */
  class HandlerSet {
    var members: set<Handler>

    constructor ()
      ensures members == {}
    {
      members := {};
    }
  }

  class Registry {
    var handlers: map<MessageType, HandlerSet>

    constructor ()
      ensures handlers == map[] && Valid() && Pairs() == {}
    {
      handlers := map[];
    }

    /** Every type has a set of its own, and never an empty one. */
    ghost predicate Valid()
      reads this, handlers.Values
    {
      && (forall t, u :: t in handlers && u in handlers && t != u ==> handlers[t] != handlers[u])
      && (forall t :: t in handlers ==> handlers[t].members != {})
    }

    /** The subscriptions in force. */
    ghost function Pairs(): set<(MessageType, Handler)>
      reads this, handlers.Values
    {
      set t, h | t in handlers && h in handlers[t].members :: (t, h)
    }

    /** Adds one subscription to those in force. */
    method Subscribe(t: MessageType, h: Handler)
      requires Valid()
      modifies this, handlers.Values
      ensures Valid() && Pairs() == old(Pairs()) + {(t, h)}
      ensures forall s :: s in handlers.Values ==> s in old(handlers.Values) || fresh(s)
    {
      var current: HandlerSet;
      if t in handlers {
        current := handlers[t];
      } else {
        current := new HandlerSet();
      }
      label adding:
      current.members := current.members + {h};
      handlers := handlers[t := current];
      forall u, k
        ensures (u, k) in Pairs() <==> (u, k) in old(Pairs()) || (u, k) == (t, h)
      {
        assert u in handlers && u != t ==> handlers[u] != current;
      }
    }

    /** Ends one subscription, whether or not it was in force, and forgets a type left without any. */
    method Unsubscribe(t: MessageType, h: Handler)
      requires Valid()
      modifies this, handlers.Values
      ensures Valid() && Pairs() == old(Pairs()) - {(t, h)}
      ensures handlers.Values <= old(handlers.Values)
    {
      if t in handlers {
        var current := handlers[t];
        current.members := current.members - {h};
        if |current.members| == 0 {
          handlers := handlers - {t};
        }
        forall u, k
          ensures (u, k) in Pairs() <==> (u, k) in old(Pairs()) && (u, k) != (t, h)
        {
          assert u in handlers && u != t ==> handlers[u] != current;
        }
      }
    }

    /** The handlers that a message of type `t` goes to. */
    method Route(t: MessageType) returns (targets: set<Handler>)
      requires Valid()
      ensures forall h :: h in targets <==> (t, h) in Pairs()
    {
      targets := if t in handlers then handlers[t].members else {};
    }
  }
}
