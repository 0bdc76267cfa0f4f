/** The publish/subscribe broker: handlers, publications and deliveries, in any interleaving. */
module Broker {
  import opened Prelude
  import opened Bytes

  type ClientId = nat

  type Topic = Text

  type Subscribers = map<Topic, set<ClientId>>

  // ---- The shared map ----

  function RecipientsOf(subs: Subscribers, topic: Topic): set<ClientId> {
    if topic in subs then subs[topic] else {}
  }

  function Subscribed(subs: Subscribers, c: ClientId, topic: Topic): Subscribers {
    subs[topic := RecipientsOf(subs, topic) + {c}]
  }

  /** A topic nobody is left on is dropped. */
  function Removed(subs: Subscribers, c: ClientId): Subscribers {
    map t | t in subs && subs[t] - {c} != {} :: subs[t] - {c}
  }

  predicate NoneEmpty(subs: Subscribers) {
    forall t :: t in subs ==> subs[t] != {}
  }

  /** The map while the client is being taken out, with the topics of `todo` still to be visited. */
  function PartlyRemoved(subs: Subscribers, c: ClientId, todo: set<Topic>): Subscribers {
    map t | t in subs && (t in todo || subs[t] - {c} != {}) :: if t in todo then subs[t] else subs[t] - {c}
  }

  lemma PartlyRemovedEnds(subs: Subscribers, c: ClientId)
    ensures PartlyRemoved(subs, c, subs.Keys) == subs && PartlyRemoved(subs, c, {}) == Removed(subs, c)
  {
  }

  lemma PartlyRemovedStep(subs: Subscribers, c: ClientId, todo: set<Topic>, topic: Topic)
    requires topic in todo && topic in subs
    ensures var now, next := PartlyRemoved(subs, c, todo), PartlyRemoved(subs, c, todo - {topic});
            && topic in now
            && next == if now[topic] - {c} == {} then now - {topic} else now[topic := now[topic] - {c}]
  {
  }

  /** The map of subscribers, changed under the lock. */
  class Registry {
    var subscribers: Subscribers

    constructor ()
      ensures subscribers == map[]
    {
      subscribers := map[];
    }

    method Subscribe(c: ClientId, topic: Topic)
      modifies this
      ensures subscribers == Subscribed(old(subscribers), c, topic)
    {
      if topic !in subscribers {
        subscribers := subscribers[topic := {}];
      }
      subscribers := subscribers[topic := subscribers[topic] + {c}];
    }

    method Remove(c: ClientId)
      modifies this
      ensures subscribers == Removed(old(subscribers), c)
    {
      hide PartlyRemoved, Removed;
      var todo := subscribers.Keys;
      PartlyRemovedEnds(subscribers, c);
      while todo != {}
        invariant todo <= old(subscribers).Keys && subscribers == PartlyRemoved(old(subscribers), c, todo)
        decreases |todo|
      {
        var topic :| topic in todo;
        PartlyRemovedStep(old(subscribers), c, todo, topic);
        todo := todo - {topic};
        var clients := subscribers[topic] - {c};
        if clients == {} {
          subscribers := subscribers - {topic};
        } else {
          subscribers := subscribers[topic := clients];
        }
      }
    }

    /** Whom a publication goes to: every subscriber of the topic once, and nobody else. */
    method Recipients(topic: Topic) returns (r: seq<ClientId>)
      ensures forall c :: c in r <==> topic in subscribers && c in subscribers[topic]
      ensures forall i, j :: 0 <= i < j < |r| ==> r[i] != r[j]
    {
      r := [];
      var todo := if topic in subscribers then subscribers[topic] else {};
      while todo != {}
        invariant forall c :: c in RecipientsOf(subscribers, topic) <==> c in todo || c in r
        invariant forall c :: c in r ==> c !in todo
        invariant forall i, j :: 0 <= i < j < |r| ==> r[i] != r[j]
        decreases |todo|
      {
        var c :| c in todo;
        todo := todo - {c};
        r := r + [c];
      }
    }
  }

  // ---- Runs ----

  /** The `number`-th publication of its sender. */
  datatype Message = Message(from: ClientId, number: nat, topic: Topic, payload: Text)

  /**
    A handler reads its next line only when all deliveries of its last publication are done: sent, or failed
    and the recipient removed.
   */
  datatype Handler =
    | Idle
    | Publishing(message: Message, pending: set<ClientId>, failed: set<ClientId>)
    | Finished

  datatype Client = Client(handler: Handler, published: nat, inbox: seq<Message>)

  datatype State = State(subs: Subscribers, clients: map<ClientId, Client>)

  const START := State(map[], map[])

  datatype Action =
    | Connect(c: ClientId)
    | Subscribe(c: ClientId, topic: Topic)
    | Publish(c: ClientId, topic: Topic, payload: Text)
    | Deliver(c: ClientId, to: ClientId)      // one send, completed
    | Fail(c: ClientId, to: ClientId)         // one send, failed: the connection is closed
    | RemoveFailed(c: ClientId, to: ClientId)
    | EndPublish(c: ClientId)
    | Leave(c: ClientId)                      // the final remove of a handler

  function HandlerOf(s: State, c: ClientId): Handler {
    if c in s.clients then s.clients[c].handler else Finished
  }

  function SetHandler(s: State, c: ClientId, h: Handler): State
    requires c in s.clients
  {
    s.(clients := s.clients[c := s.clients[c].(handler := h)])
  }

  function Receive(s: State, d: ClientId, m: Message): State
    requires d in s.clients
  {
    s.(clients := s.clients[d := s.clients[d].(inbox := s.clients[d].inbox + [m])])
  }

  function Step(s: State, a: Action): Option<State> {
    if a.Connect? then
      if a.c in s.clients then None else Some(s.(clients := s.clients[a.c := Client(Idle, 0, [])]))
    else if a.c !in s.clients then None
    else
      var k := s.clients[a.c];
      match k.handler
      case Finished => None
      case Idle =>
        (match a
         case Subscribe(c, topic) => Some(s.(subs := Subscribed(s.subs, c, topic)))
         case Publish(c, topic, payload) =>
           var m := Message(c, k.published, topic, payload);
           Some(s.(clients := s.clients[c := Client(Publishing(m, RecipientsOf(s.subs, topic), {}), k.published + 1, k.inbox)]))
         case Leave(c) => Some(SetHandler(s, c, Finished).(subs := Removed(s.subs, c)))
         case _ => None)
      case Publishing(m, pending, failed) =>
        (match a
         case Deliver(c, d) =>
           if d !in pending || d !in s.clients then None
           else Some(Receive(SetHandler(s, c, Publishing(m, pending - {d}, failed)), d, m))
         case Fail(c, d) =>
           if d !in pending then None else Some(SetHandler(s, c, Publishing(m, pending - {d}, failed + {d})))
         case RemoveFailed(c, d) =>
           if d !in failed then None
           else Some(SetHandler(s, c, Publishing(m, pending, failed - {d})).(subs := Removed(s.subs, d)))
         case EndPublish(c) => if pending != {} || failed != {} then None else Some(SetHandler(s, c, Idle))
         case _ => None)
  }

  /** The state after a run, if every step of it is possible. */
  function Run(actions: seq<Action>): Option<State>
    decreases actions
  {
    if actions == [] then Some(START)
    else match Run(actions[..|actions| - 1])
      case None => None
      case Some(s) => Step(s, actions[|actions| - 1])
  }

  // ---- Invariants ----

  /** Everyone subscribed has a handler that has not finished. */
  predicate SubsOk(s: State) {
    NoneEmpty(s.subs) && forall t, c :: t in s.subs && c in s.subs[t] ==> HandlerOf(s, c) != Finished
  }

  /** The messages of one sender arrive in publication order, none twice. */
  predicate InOrder(inbox: seq<Message>) {
    forall i, j :: 0 <= i < j < |inbox| && inbox[i].from == inbox[j].from ==> inbox[i].number < inbox[j].number
  }

  function InboxOf(s: State, d: ClientId): seq<Message> {
    if d in s.clients then s.clients[d].inbox else []
  }

  function PublishedOf(s: State, p: ClientId): nat {
    if p in s.clients then s.clients[p].published else 0
  }

  /** Everything in the inbox that came from `p` is numbered below `n`. */
  predicate AllBelow(inbox: seq<Message>, p: ClientId, n: nat) {
    forall i :: 0 <= i < |inbox| && inbox[i].from == p ==> inbox[i].number < n
  }

  /** What client `d` has got from `p` so far is older than what `p` still has to send it. */
  predicate PairOk(s: State, d: ClientId, p: ClientId) {
    && AllBelow(InboxOf(s, d), p, PublishedOf(s, p))
    && var h := HandlerOf(s, p);
       h.Publishing? ==>
         && h.message.from == p && h.message.number + 1 == PublishedOf(s, p)
         && (d in h.pending ==> AllBelow(InboxOf(s, d), p, h.message.number))
  }

  ghost predicate Inv(s: State) {
    && SubsOk(s)
    && (forall d, p :: PairOk(s, d, p))
    && (forall d :: InOrder(InboxOf(s, d)))
  }

  // ---- Every step keeps them ----

  /** A handler only finishes by leaving, and the map of subscribers changes in two ways. */
  lemma StepSubscribers(s: State, a: Action)
    requires Step(s, a).Some?
    ensures var s' := Step(s, a).value;
            if a.Subscribe? then s'.subs == Subscribed(s.subs, a.c, a.topic)
            else if a.Leave? then s'.subs == Removed(s.subs, a.c)
            else if a.RemoveFailed? then s'.subs == Removed(s.subs, a.to)
            else s'.subs == s.subs
    ensures a.Subscribe? ==> HandlerOf(Step(s, a).value, a.c) != Finished
  {
    hide Removed, Subscribed;
  }

  lemma StepFinished(s: State, a: Action, x: ClientId)
    requires Step(s, a).Some? && HandlerOf(Step(s, a).value, x) == Finished
    ensures HandlerOf(s, x) == Finished || a == Leave(x)
  {
    hide Removed, Subscribed;
  }

  lemma StepSubs(s: State, a: Action)
    requires SubsOk(s) && Step(s, a).Some?
    ensures SubsOk(Step(s, a).value)
  {
    hide Step, HandlerOf;
    StepSubscribers(s, a);
    var s' := Step(s, a).value;
    if a.Subscribe? {
      assert a.c in RecipientsOf(s.subs, a.topic) + {a.c};
    }
    forall t, c | t in s'.subs && c in s'.subs[t] ensures HandlerOf(s', c) != Finished {
      if HandlerOf(s', c) == Finished {
        StepFinished(s, a, c);
      }
    }
  }

  /** What a step does to the inbox, the counter and the handler of one client. */
  lemma StepEffect(s: State, a: Action, x: ClientId)
    requires Step(s, a).Some?
    ensures var s' := Step(s, a).value;
            && (a.Deliver? ==> HandlerOf(s, a.c).Publishing? && a.to in HandlerOf(s, a.c).pending)
            && InboxOf(s', x) == (if a.Deliver? && a.to == x then InboxOf(s, x) + [HandlerOf(s, a.c).message] else InboxOf(s, x))
            && PublishedOf(s', x) == PublishedOf(s, x) + (if a.Publish? && a.c == x then 1 else 0)
            && (x != a.c ==> HandlerOf(s', x) == HandlerOf(s, x))
            && (x == a.c && HandlerOf(s', x).Publishing? ==>
                  if a.Publish? then HandlerOf(s', x).message == Message(x, PublishedOf(s, x), a.topic, a.payload)
                  else
                    && HandlerOf(s, x).Publishing? && HandlerOf(s', x).message == HandlerOf(s, x).message
                    && HandlerOf(s', x).pending <= HandlerOf(s, x).pending
                    && (a.Deliver? ==> a.to !in HandlerOf(s', x).pending))
  {
    hide Removed, Subscribed;
  }

  lemma StepPair(s: State, a: Action, d: ClientId, p: ClientId)
    requires Step(s, a).Some? && PairOk(s, d, p) && (a.Deliver? ==> PairOk(s, a.to, a.c))
    ensures PairOk(Step(s, a).value, d, p)
  {
    hide Step, InboxOf, PublishedOf, HandlerOf;
    StepEffect(s, a, d);
    StepEffect(s, a, p);
  }

  lemma StepOrder(s: State, a: Action, d: ClientId)
    requires Step(s, a).Some? && InOrder(InboxOf(s, d)) && (a.Deliver? ==> PairOk(s, d, a.c))
    ensures InOrder(InboxOf(Step(s, a).value, d))
  {
    hide Step, InboxOf, PublishedOf, HandlerOf;
    StepEffect(s, a, d);
  }

  lemma StepKeeps(s: State, a: Action)
    requires Inv(s) && Step(s, a).Some?
    ensures Inv(Step(s, a).value)
  {
    hide SubsOk, PairOk, InOrder, Step, InboxOf;
    StepSubs(s, a);
    forall d, p ensures PairOk(Step(s, a).value, d, p) {
      StepPair(s, a, d, p);
    }
    forall d ensures InOrder(InboxOf(Step(s, a).value, d)) {
      StepOrder(s, a, d);
    }
  }

  lemma {:induction false} RunKeeps(actions: seq<Action>)
    requires Run(actions).Some?
    ensures Inv(Run(actions).value)
    decreases actions
  {
    hide Step, SubsOk, PairOk, InOrder, InboxOf;
    if actions == [] {
      StartOk();
    } else {
      RunKeeps(actions[..|actions| - 1]);
      StepKeeps(Run(actions[..|actions| - 1]).value, actions[|actions| - 1]);
    }
  }

  lemma StartOk()
    ensures Inv(START)
  {
  }

  // ---- What runs guarantee ----

  /**
    In every run, at every subscriber, what was received from one publisher is in publication order and
    without duplicates; no topic has an empty set of subscribers; and a client whose handler has finished is
    subscribed to nothing.
   */
  lemma RunsAreOrdered(actions: seq<Action>)
    requires Run(actions).Some?
    ensures var s := Run(actions).value;
            && (forall d :: d in s.clients ==> InOrder(s.clients[d].inbox))
            && NoneEmpty(s.subs)
            && forall c, t :: c in s.clients && s.clients[c].handler == Finished ==> c !in RecipientsOf(s.subs, t)
  {
    hide Run;
    RunKeeps(actions);
    var s := Run(actions).value;
    forall d | d in s.clients ensures InOrder(s.clients[d].inbox) {
      assert InOrder(InboxOf(s, d));
    }
    forall c, t | c in s.clients && s.clients[c].handler == Finished ensures c !in RecipientsOf(s.subs, t) {
      assert HandlerOf(s, c) == Finished;
    }
  }

  lemma FinishedStays(s: State, a: Action, c: ClientId)
    requires Step(s, a).Some? && c in s.clients && s.clients[c].handler == Finished
    ensures c in Step(s, a).value.clients && Step(s, a).value.clients[c].handler == Finished
  {
    hide Removed, Subscribed;
  }

  /** However a run goes on, a client whose handler has finished stays so and is subscribed to nothing. */
  lemma {:induction false} FinishedForever(actions: seq<Action>, more: seq<Action>, c: ClientId)
    requires Run(actions).Some? && Run(actions + more).Some?
    requires var s := Run(actions).value; c in s.clients && s.clients[c].handler == Finished
    ensures var s := Run(actions + more).value;
            c in s.clients && s.clients[c].handler == Finished && forall t :: c !in RecipientsOf(s.subs, t)
    decreases more
  {
    hide Step, RecipientsOf;
    if more == [] {
      assert actions + more == actions;
    } else {
      var n := |more| - 1;
      assert (actions + more)[..|actions + more| - 1] == actions + more[..n];
      FinishedForever(actions, more[..n], c);
      FinishedStays(Run(actions + more[..n]).value, more[n], c);
    }
    RunsAreOrdered(actions + more);
  }

  /** The publication behind a message: the step that made it, at a time when the receiver was subscribed. */
  ghost predicate PublishedAt(actions: seq<Action>, k: nat, m: Message, d: ClientId) {
    && k < |actions| && Run(actions[..k]).Some?
    && actions[k] == Publish(m.from, m.topic, m.payload)
    && d in RecipientsOf(Run(actions[..k]).value.subs, m.topic)
  }

  /** Nothing that is published after a handler has finished is meant for its client. */
  lemma NothingAfterFinished(actions: seq<Action>, more: seq<Action>, c: ClientId, k: nat, m: Message)
    requires Run(actions).Some? && c in Run(actions).value.clients && Run(actions).value.clients[c].handler == Finished
    requires PublishedAt(actions + more, k, m, c)
    ensures k < |actions|
  {
    hide Run, RecipientsOf;
    if k >= |actions| {
      var n := k - |actions|;
      assert (actions + more)[..k] == actions + more[..n];
      FinishedForever(actions, more[..n], c);
    }
  }

  ghost predicate Known(actions: seq<Action>, m: Message, d: ClientId) {
    exists k :: PublishedAt(actions, k, m, d)
  }

  /** Every message received, and every delivery still to be made, goes back to a publication that saw the receiver as a subscriber. */
  ghost predicate Justified(actions: seq<Action>, s: State) {
    && (forall d, i :: 0 <= i < |InboxOf(s, d)| ==> Known(actions, InboxOf(s, d)[i], d))
    && (forall p, d :: HandlerOf(s, p).Publishing? && d in HandlerOf(s, p).pending ==> Known(actions, HandlerOf(s, p).message, d))
  }

  lemma KnownLater(actions: seq<Action>, a: Action, m: Message, d: ClientId)
    requires Known(actions, m, d)
    ensures Known(actions + [a], m, d)
  {
    hide Run;
    var k: nat :| PublishedAt(actions, k, m, d);
    assert (actions + [a])[..k] == actions[..k] && (actions + [a])[k] == actions[k];
    assert PublishedAt(actions + [a], k, m, d);
  }

  lemma JustPublished(actions: seq<Action>, a: Action, s: State, d: ClientId)
    requires Run(actions) == Some(s) && a.Publish? && Step(s, a).Some? && d in HandlerOf(Step(s, a).value, a.c).pending
    ensures Known(actions + [a], HandlerOf(Step(s, a).value, a.c).message, d)
  {
    hide Run;
    assert (actions + [a])[..|actions|] == actions;
    assert PublishedAt(actions + [a], |actions|, HandlerOf(Step(s, a).value, a.c).message, d);
  }

  lemma StepJustified(actions: seq<Action>, a: Action, s: State)
    requires Run(actions) == Some(s) && Justified(actions, s) && Step(s, a).Some?
    ensures Justified(actions + [a], Step(s, a).value)
  {
    hide Run, Step, Known, InboxOf, HandlerOf, PublishedOf;
    var s' := Step(s, a).value;
    forall d, i | 0 <= i < |InboxOf(s', d)| ensures Known(actions + [a], InboxOf(s', d)[i], d) {
      StepEffect(s, a, d);
      KnownLater(actions, a, InboxOf(s', d)[i], d);
    }
    forall p, d | HandlerOf(s', p).Publishing? && d in HandlerOf(s', p).pending ensures Known(actions + [a], HandlerOf(s', p).message, d) {
      StepEffect(s, a, p);
      if a.Publish? && p == a.c {
        JustPublished(actions, a, s, d);
      } else {
        KnownLater(actions, a, HandlerOf(s', p).message, d);
      }
    }
  }

  lemma StartJustified()
    ensures Justified([], START)
  {
  }

  /** Every message ever received was published while its receiver was subscribed to its topic. */
  lemma {:induction false} OnlySubscribedTopics(actions: seq<Action>)
    requires Run(actions).Some?
    ensures Justified(actions, Run(actions).value)
    decreases actions
  {
    hide Step, Known, InboxOf, HandlerOf;
    if actions == [] {
      StartJustified();
    } else {
      var n := |actions| - 1;
      OnlySubscribedTopics(actions[..n]);
      StepJustified(actions[..n], actions[n], Run(actions[..n]).value);
      assert actions == actions[..n] + [actions[n]];
    }
  }

  // ---- Who is subscribed ----

  /** The steps that take a client out of all topics. */
  predicate Unsubscribes(a: Action, d: ClientId) {
    a == Leave(d) || (a.RemoveFailed? && a.to == d)
  }

  /** The client has subscribed to the topic and has not been taken out since. */
  ghost predicate SubscribedBy(actions: seq<Action>, d: ClientId, t: Topic) {
    exists i :: 0 <= i < |actions| && actions[i] == Subscribe(d, t) && forall j :: i < j < |actions| ==> !Unsubscribes(actions[j], d)
  }

  lemma SubscribedLater(actions: seq<Action>, a: Action, d: ClientId, t: Topic)
    ensures SubscribedBy(actions + [a], d, t) <==> a == Subscribe(d, t) || (SubscribedBy(actions, d, t) && !Unsubscribes(a, d))
  {
    var all, n := actions + [a], |actions|;
    if i :| 0 <= i < |all| && all[i] == Subscribe(d, t) && forall j :: i < j < |all| ==> !Unsubscribes(all[j], d) {
      if i < n {
        assert all[n] == a && !Unsubscribes(all[n], d);
        assert actions[i] == Subscribe(d, t) && forall j :: i < j < n ==> all[j] == actions[j];
      }
    }
    if a == Subscribe(d, t) {
      assert all[n] == Subscribe(d, t);
    } else if SubscribedBy(actions, d, t) && !Unsubscribes(a, d) {
      var i :| 0 <= i < n && actions[i] == Subscribe(d, t) && forall j :: i < j < n ==> !Unsubscribes(actions[j], d);
      assert all[i] == Subscribe(d, t);
      forall j | i < j < |all| ensures !Unsubscribes(all[j], d) {
        assert j < n ==> all[j] == actions[j];
      }
    }
  }

  lemma StepRecipients(s: State, a: Action, d: ClientId, t: Topic)
    requires Step(s, a).Some?
    ensures d in RecipientsOf(Step(s, a).value.subs, t) <==> a == Subscribe(d, t) || (d in RecipientsOf(s.subs, t) && !Unsubscribes(a, d))
  {
    hide Step;
    StepSubscribers(s, a);
  }

  /** In every run, the subscribers of a topic are those who have subscribed and have not been taken out since. */
  lemma {:induction false} SubscribersExactly(actions: seq<Action>, d: ClientId, t: Topic)
    requires Run(actions).Some?
    ensures d in RecipientsOf(Run(actions).value.subs, t) <==> SubscribedBy(actions, d, t)
    decreases actions
  {
    hide Step, RecipientsOf, SubscribedBy;
    if actions == [] {
      NobodySubscribed(d, t);
    } else {
      var n := |actions| - 1;
      SubscribersExactly(actions[..n], d, t);
      StepRecipients(Run(actions[..n]).value, actions[n], d, t);
      SubscribedLater(actions[..n], actions[n], d, t);
      assert actions == actions[..n] + [actions[n]];
    }
  }

  lemma NobodySubscribed(d: ClientId, t: Topic)
    ensures d !in RecipientsOf(START.subs, t) && !SubscribedBy([], d, t)
  {
  }

  // ---- Every publication arrives ----

  /** Step `k` publishes the message. */
  ghost predicate Publishes(actions: seq<Action>, k: nat, m: Message) {
    && k < |actions| && Run(actions[..k]).Some?
    && actions[k] == Publish(m.from, m.topic, m.payload) && m.number == PublishedOf(Run(actions[..k]).value, m.from)
  }

  /** The publication made at step `k` has not ended before step `n`. */
  predicate OpenUntil(actions: seq<Action>, k: nat, n: nat, c: ClientId) {
    forall i :: k < i < n && i < |actions| ==> actions[i] != EndPublish(c)
  }

  predicate Sending(s: State, m: Message) {
    HandlerOf(s, m.from).Publishing? && HandlerOf(s, m.from).message == m
  }

  /** The delivery is still to be made. */
  ghost predicate Waiting(actions: seq<Action>, s: State, k: nat, m: Message, d: ClientId) {
    OpenUntil(actions, k, |actions|, m.from) && Sending(s, m) && d in HandlerOf(s, m.from).pending
  }

  /** The delivery failed at step `j`, within this publication, and the receiver is not removed yet. */
  ghost predicate Failing(actions: seq<Action>, s: State, k: nat, m: Message, d: ClientId) {
    && OpenUntil(actions, k, |actions|, m.from) && Sending(s, m) && d in HandlerOf(s, m.from).failed
    && exists j :: k < j < |actions| && actions[j] == Fail(m.from, d)
  }

  /** The delivery failed and then the receiver was removed, both within this publication. */
  ghost predicate Broken(actions: seq<Action>, k: nat, m: Message, d: ClientId) {
    exists j, l :: k < j < l < |actions| && actions[j] == Fail(m.from, d) && actions[l] == RemoveFailed(m.from, d) && OpenUntil(actions, k, l, m.from)
  }

  ghost predicate Accounted(actions: seq<Action>, s: State, k: nat, m: Message, d: ClientId) {
    m in InboxOf(s, d) || Waiting(actions, s, k, m, d) || Failing(actions, s, k, m, d) || Broken(actions, k, m, d)
  }

  /** What a step does to a publication in progress. */
  lemma StepPublication(s: State, a: Action, c: ClientId)
    requires Step(s, a).Some? && HandlerOf(s, c).Publishing?
    ensures var h, h' := HandlerOf(s, c), HandlerOf(Step(s, a).value, c);
            if a.c != c then h' == h
            else if a.Deliver? then h' == h.(pending := h.pending - {a.to})
            else if a.Fail? then h' == h.(pending := h.pending - {a.to}, failed := h.failed + {a.to}) && a.to in h.pending
            else if a.RemoveFailed? then h' == h.(failed := h.failed - {a.to}) && a.to in h.failed
            else a.EndPublish? && h.pending == {} && h.failed == {} && h' == Idle
  {
    hide Removed, Subscribed;
  }

  lemma OpenLonger(actions: seq<Action>, a: Action, k: nat, c: ClientId)
    requires OpenUntil(actions, k, |actions|, c) && a != EndPublish(c)
    ensures OpenUntil(actions + [a], k, |actions| + 1, c)
  {
  }

  lemma BrokenStays(actions: seq<Action>, a: Action, k: nat, m: Message, d: ClientId)
    requires Broken(actions, k, m, d)
    ensures Broken(actions + [a], k, m, d)
  {
    var j, l :| k < j < l < |actions| && actions[j] == Fail(m.from, d) && actions[l] == RemoveFailed(m.from, d) && OpenUntil(actions, k, l, m.from);
    var all := actions + [a];
    assert all[j] == actions[j] && all[l] == actions[l];
    assert OpenUntil(all, k, l, m.from);
  }

  lemma WaitingStep(actions: seq<Action>, a: Action, s: State, k: nat, m: Message, d: ClientId)
    requires Step(s, a).Some? && k < |actions| && Waiting(actions, s, k, m, d)
    ensures Accounted(actions + [a], Step(s, a).value, k, m, d)
  {
    hide Step, InboxOf, HandlerOf, PublishedOf;
    var c, s', all := m.from, Step(s, a).value, actions + [a];
    StepPublication(s, a, c);
    StepEffect(s, a, d);
    if a == Deliver(c, d) {
      assert m in InboxOf(s', d);
    } else {
      OpenLonger(actions, a, k, c);
      if a == Fail(c, d) {
        assert all[|actions|] == Fail(c, d);
        assert Failing(all, s', k, m, d);
      } else {
        assert Waiting(all, s', k, m, d);
      }
    }
  }

  lemma FailingStep(actions: seq<Action>, a: Action, s: State, k: nat, m: Message, d: ClientId)
    requires Step(s, a).Some? && k < |actions| && Failing(actions, s, k, m, d)
    ensures Accounted(actions + [a], Step(s, a).value, k, m, d)
  {
    hide Step, InboxOf, HandlerOf, PublishedOf;
    var c, s', all := m.from, Step(s, a).value, actions + [a];
    StepPublication(s, a, c);
    OpenLonger(actions, a, k, c);
    var j :| k < j < |actions| && actions[j] == Fail(c, d);
    assert all[j] == Fail(c, d);
    if a == RemoveFailed(c, d) {
      assert all[|actions|] == RemoveFailed(c, d);
      assert OpenUntil(all, k, |actions|, c);
      assert Broken(all, k, m, d);
    } else {
      assert Failing(all, s', k, m, d);
    }
  }

  lemma AccountedStep(actions: seq<Action>, a: Action, s: State, k: nat, m: Message, d: ClientId)
    requires Step(s, a).Some? && k < |actions| && Accounted(actions, s, k, m, d)
    ensures Accounted(actions + [a], Step(s, a).value, k, m, d)
  {
    hide Step, InboxOf, Waiting, Failing, Broken;
    if m in InboxOf(s, d) {
      hide HandlerOf, PublishedOf;
      StepEffect(s, a, d);
    } else if Waiting(actions, s, k, m, d) {
      WaitingStep(actions, a, s, k, m, d);
    } else if Failing(actions, s, k, m, d) {
      FailingStep(actions, a, s, k, m, d);
    } else {
      BrokenStays(actions, a, k, m, d);
    }
  }

  lemma PublishStarts(actions: seq<Action>, a: Action, s: State, m: Message, d: ClientId)
    requires Run(actions) == Some(s) && Step(s, a).Some? && a == Publish(m.from, m.topic, m.payload) && m.number == PublishedOf(s, m.from)
    requires d in RecipientsOf(s.subs, m.topic)
    ensures Waiting(actions + [a], Step(s, a).value, |actions|, m, d)
  {
    hide Run, Removed, Subscribed;
  }

  /** At every point of every run, a delivery is made, still to be made, failing, or failed with its receiver removed. */
  lemma {:induction false} DeliveriesAccounted(actions: seq<Action>, k: nat, m: Message, d: ClientId)
    requires Run(actions).Some? && Publishes(actions, k, m) && SubscribedBy(actions[..k], d, m.topic)
    ensures Accounted(actions, Run(actions).value, k, m, d)
    decreases actions
  {
    hide Step, Accounted, SubscribedBy, RecipientsOf, Waiting;
    var n := |actions| - 1;
    var before := actions[..n];
    assert actions == before + [actions[n]];
    if k == n {
      SubscribersExactly(before, d, m.topic);
      PublishStarts(before, actions[n], Run(before).value, m, d);
      WaitingCounts(actions, Run(actions).value, k, m, d);
    } else {
      assert before[..k] == actions[..k] && before[k] == actions[k];
      DeliveriesAccounted(before, k, m, d);
      AccountedStep(before, actions[n], Run(before).value, k, m, d);
    }
  }

  lemma WaitingCounts(actions: seq<Action>, s: State, k: nat, m: Message, d: ClientId)
    requires Waiting(actions, s, k, m, d)
    ensures Accounted(actions, s, k, m, d)
  {
  }

  /** The message is in the inbox, once. */
  ghost predicate GotOnce(inbox: seq<Message>, m: Message) {
    exists i :: 0 <= i < |inbox| && inbox[i] == m && forall j :: 0 <= j < |inbox| && inbox[j] == m ==> j == i
  }

  /**
    Every publication arrives. If a message was published while a client was subscribed to its topic, then as
    soon as its publisher is done with it, the client has got it exactly once, or the delivery to that client
    failed and the client was taken out, both before the publication ended.
   */
  lemma EveryPublicationArrives(actions: seq<Action>, k: nat, m: Message, d: ClientId)
    requires Run(actions).Some? && Publishes(actions, k, m) && SubscribedBy(actions[..k], d, m.topic)
    requires !Sending(Run(actions).value, m)
    ensures GotOnce(InboxOf(Run(actions).value, d), m) || Broken(actions, k, m, d)
  {
    hide Run, Publishes, SubscribedBy, InboxOf, Broken, Sending, SubsOk, PairOk;
    DeliveriesAccounted(actions, k, m, d);
    RunKeeps(actions);
    var s := Run(actions).value;
    assert InOrder(InboxOf(s, d));
    if m in InboxOf(s, d) {
      OnceInOrder(InboxOf(s, d), m);
    }
  }

  lemma OnceInOrder(inbox: seq<Message>, m: Message)
    requires InOrder(inbox) && m in inbox
    ensures GotOnce(inbox, m)
  {
    var i :| 0 <= i < |inbox| && inbox[i] == m;
    forall j | 0 <= j < |inbox| && inbox[j] == m ensures j == i {
      assert !(i < j) && !(j < i);
    }
  }

  // ---- Nothing blocks ----

  /** Whoever is to be sent to is known. */
  ghost predicate PendingKnown(s: State) {
    forall p, d :: HandlerOf(s, p).Publishing? && d in HandlerOf(s, p).pending + HandlerOf(s, p).failed ==> d in s.clients
  }

  lemma StepClients(s: State, a: Action)
    requires Step(s, a).Some?
    ensures s.clients.Keys <= Step(s, a).value.clients.Keys
  {
    hide Removed, Subscribed;
  }

  lemma RecipientsKnown(s: State, t: Topic, d: ClientId)
    requires SubsOk(s) && d in RecipientsOf(s.subs, t)
    ensures d in s.clients
  {
    assert t in s.subs && d in s.subs[t];
    assert HandlerOf(s, d) != Finished;
  }

  lemma StepPending(s: State, a: Action)
    requires SubsOk(s) && PendingKnown(s) && Step(s, a).Some?
    ensures PendingKnown(Step(s, a).value)
  {
    hide Step, SubsOk, HandlerOf;
    var s' := Step(s, a).value;
    StepClients(s, a);
    forall p, d | HandlerOf(s', p).Publishing? && d in HandlerOf(s', p).pending + HandlerOf(s', p).failed ensures d in s'.clients {
      if HandlerOf(s, p).Publishing? {
        StepPublication(s, a, p);
        assert d in HandlerOf(s, p).pending + HandlerOf(s, p).failed;
      } else {
        PublishBegins(s, a, p);
        RecipientsKnown(s, a.topic, d);
      }
    }
  }

  lemma PublishBegins(s: State, a: Action, p: ClientId)
    requires Step(s, a).Some? && !HandlerOf(s, p).Publishing? && HandlerOf(Step(s, a).value, p).Publishing?
    ensures a.Publish? && a.c == p && HandlerOf(Step(s, a).value, p).pending == RecipientsOf(s.subs, a.topic)
    ensures HandlerOf(Step(s, a).value, p).failed == {}
  {
    hide Removed, Subscribed;
  }

  lemma {:induction false} RunPending(actions: seq<Action>)
    requires Run(actions).Some?
    ensures PendingKnown(Run(actions).value)
    decreases actions
  {
    hide Step, SubsOk, PairOk, InOrder, InboxOf;
    if actions != [] {
      RunPending(actions[..|actions| - 1]);
      RunKeeps(actions[..|actions| - 1]);
      StepPending(Run(actions[..|actions| - 1]).value, actions[|actions| - 1]);
    }
  }

  /**
    In every state a run can reach, a handler can go on: every pending delivery can be made or can fail, every
    failed receiver can be removed, a publication with nothing left to do can end, and an idle handler can
    subscribe, publish or leave.
   */
  lemma HandlersCanGoOn(actions: seq<Action>, c: ClientId)
    requires Run(actions).Some? && c in Run(actions).value.clients
    ensures var s := Run(actions).value;
            match HandlerOf(s, c)
            case Idle =>
              && Step(s, Leave(c)).Some?
              && (forall t :: Step(s, Subscribe(c, t)).Some?)
              && (forall t, x :: Step(s, Publish(c, t, x)).Some?)
            case Publishing(_, pending, failed) =>
              && (forall d :: d in pending ==> Step(s, Deliver(c, d)).Some? && Step(s, Fail(c, d)).Some?)
              && (forall d :: d in failed ==> Step(s, RemoveFailed(c, d)).Some?)
              && (pending == {} && failed == {} ==> Step(s, EndPublish(c)).Some?)
            case Finished => true
  {
    hide Run;
    RunPending(actions);
    var s := Run(actions).value;
    if HandlerOf(s, c).Publishing? {
      forall d | d in HandlerOf(s, c).pending ensures d in s.clients {
        assert d in HandlerOf(s, c).pending + HandlerOf(s, c).failed;
      }
    } else if HandlerOf(s, c).Idle? {
      assert forall t :: Step(s, Subscribe(c, t)).Some?;
      assert forall t, x :: Step(s, Publish(c, t, x)).Some?;
    }
  }
}
