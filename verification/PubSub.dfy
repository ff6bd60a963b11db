/** Subscription tracking: the client's two tables against the server's set, over a
    connection whose commands and acknowledgements are in flight. */
module PubSub {
  datatype Option<+T> = None | Some(value: T)

  datatype Kind = Channel | Pattern
  datatype Name = Name(kind: Kind, text: string)

  datatype Command =
    | Subscribe(names: set<Name>)
    | Unsubscribe(names: set<Name>)
    | UnsubscribeAll(kind: Kind)       // no arguments

  datatype Message =
    | Subscribed(name: Name)
    | Unsubscribed(name: Name)
    | Published(name: Name)            // 'message' and 'pmessage'

  // ---- the server ----

  function Affected(subs: set<Name>, c: Command): set<Name> {
    match c
    case Subscribe(ns) => ns
    case Unsubscribe(ns) => ns
    case UnsubscribeAll(k) => set n | n in subs && n.kind == k
  }

  function Apply(subs: set<Name>, c: Command): set<Name> {
    if c.Subscribe? then subs + c.names else subs - Affected(subs, c)
  }

  /** The server's set once it has processed all of cmds. */
  function After(subs: set<Name>, cmds: seq<Command>): set<Name>
    decreases |cmds|
  {
    if cmds == [] then subs else After(Apply(subs, cmds[0]), cmds[1..])
  }

  /** Processing cmds acknowledges an unsubscription from n. */
  predicate Owes(subs: set<Name>, cmds: seq<Command>, n: Name)
    decreases |cmds|
  {
    cmds != [] && ((!cmds[0].Subscribe? && n in Affected(subs, cmds[0])) || Owes(Apply(subs, cmds[0]), cmds[1..], n))
  }

  // ---- the client's side, as values ----

  datatype Client = Client(names: set<Name>, pending: set<Name>, sent: seq<Command>)

  function Send(cl: Client, c: Command): Client { cl.(sent := cl.sent + [c]) }

  function DoSubscribe(cl: Client, ns: set<Name>): Client {
    Send(cl, Subscribe(ns)).(names := cl.names + ns, pending := cl.pending - ns)
  }

  function OfKind(ns: set<Name>, k: Kind): set<Name> { set n | n in ns && n.kind == k }

  /** What unsubscribe or punsubscribe marks as pending. */
  function Marks(cl: Client, k: Kind, names: Option<set<Name>>): set<Name> {
    if names.None? then OfKind(cl.names, k) else names.value
  }

  /** What it sends: without a name to list, the command means all of them. */
  function Leave(k: Kind, names: Option<set<Name>>): Command {
    if names.None? || names.value == {} then UnsubscribeAll(k) else Unsubscribe(names.value)
  }

  /** The pending set is written; if the send finds the connection gone, on_connect clears
      the set and subscribes again; and only then the command goes out. */
  function DoUnsubscribe(cl: Client, k: Kind, names: Option<set<Name>>, up: bool): Client {
    var marked := cl.(pending := cl.pending + Marks(cl, k, names));
    Send(if up then marked else DoConnect(marked), Leave(k, names))
  }

  /** A fresh connection: what was sent on the old one is gone, and on_connect
      subscribes again to everything in the tables. */
  function DoConnect(cl: Client): Client {
    Resubscribed(Resubscribed(Client(cl.names, {}, []), OfKind(cl.names, Channel)), OfKind(cl.names, Pattern))
  }

  function Resubscribed(cl: Client, ns: set<Name>): Client {
    if ns == {} then cl else DoSubscribe(cl, ns)
  }

  function DoHandle(cl: Client, m: Message): Client {
    if m.Unsubscribed? && m.name in cl.pending
    then cl.(pending := cl.pending - {m.name}, names := cl.names - {m.name})
    else cl
  }

  // ---- the PubSub object ----

  type Handler = nat

  function Tag(k: Kind, texts: set<string>): set<Name> { set x | x in texts :: Name(k, x) }

  lemma TagSets(k: Kind, a: set<string>, b: set<string>)
    ensures Tag(k, a + b) == Tag(k, a) + Tag(k, b)
    ensures Tag(k, a - b) == Tag(k, a) - Tag(k, b)
    ensures forall x :: Name(k, x) in Tag(k, a) <==> x in a
  {
  }

  lemma TagKinds(a: set<string>, b: set<string>)
    ensures OfKind(Tag(Channel, a) + Tag(Pattern, b), Channel) == Tag(Channel, a)
    ensures OfKind(Tag(Channel, a) + Tag(Pattern, b), Pattern) == Tag(Pattern, b)
    ensures Tag(Channel, a) == {} <==> a == {}
    ensures Tag(Pattern, b) == {} <==> b == {}
  {
    forall x | x in a ensures Name(Channel, x) in Tag(Channel, a) { }
    forall x | x in b ensures Name(Pattern, x) in Tag(Pattern, b) { }
  }

  function Tagged(k: Kind, texts: Option<set<string>>): Option<set<Name>> {
    if texts.None? then None else Some(Tag(k, texts.value))
  }

  lemma LeaveTagged(k: Kind, texts: Option<set<string>>)
    ensures Leave(k, Tagged(k, texts)) ==
      if texts.None? || texts.value == {} then UnsubscribeAll(k) else Unsubscribe(Tag(k, texts.value))
  {
    if texts.Some? && texts.value != {} {
      var x :| x in texts.value;
      assert Name(k, x) in Tag(k, texts.value);
    }
  }

  lemma TagRemoved(k: Kind, a: set<string>, others: set<string>, x: string)
    ensures Tag(k, a - {x}) + Tag(Other(k), others) == Tag(k, a) + Tag(Other(k), others) - {Name(k, x)}
  {
  }

  function Other(k: Kind): Kind { if k == Channel then Pattern else Channel }

  class PubSubClient {
    var channels: map<string, Handler>
    var pendingUnsubscribeChannels: set<string>
    var patterns: map<string, Handler>
    var pendingUnsubscribePatterns: set<string>
    var sent: seq<Command>   // on the present connection

    function Value(): Client
      reads this
    {
      Client(Tag(Channel, channels.Keys) + Tag(Pattern, patterns.Keys),
             Tag(Channel, pendingUnsubscribeChannels) + Tag(Pattern, pendingUnsubscribePatterns), sent)
    }

    constructor ()
      ensures Value() == Client({}, {}, [])
    {
      channels, patterns := map[], map[];
      pendingUnsubscribeChannels, pendingUnsubscribePatterns := {}, {};
      sent := [];
    }

    /** The tables are updated after the command went out. */
    method SubscribeTo(new_: map<string, Handler>)
      modifies this
      ensures Value() == DoSubscribe(old(Value()), Tag(Channel, new_.Keys))
      ensures pendingUnsubscribeChannels == old(pendingUnsubscribeChannels) - new_.Keys
      ensures sent == old(sent) + [Subscribe(Tag(Channel, new_.Keys))]
      ensures channels == old(channels) + new_ && patterns == old(patterns)
    {
      sent := sent + [Subscribe(Tag(Channel, new_.Keys))];
      TagSets(Channel, channels.Keys, new_.Keys);
      TagSets(Channel, pendingUnsubscribeChannels, new_.Keys);
      channels := channels + new_;
      pendingUnsubscribeChannels := pendingUnsubscribeChannels - new_.Keys;
    }

    method PsubscribeTo(new_: map<string, Handler>)
      modifies this
      ensures Value() == DoSubscribe(old(Value()), Tag(Pattern, new_.Keys))
      ensures pendingUnsubscribePatterns == old(pendingUnsubscribePatterns) - new_.Keys
      ensures sent == old(sent) + [Subscribe(Tag(Pattern, new_.Keys))]
      ensures patterns == old(patterns) + new_ && channels == old(channels)
    {
      sent := sent + [Subscribe(Tag(Pattern, new_.Keys))];
      TagSets(Pattern, patterns.Keys, new_.Keys);
      TagSets(Pattern, pendingUnsubscribePatterns, new_.Keys);
      patterns := patterns + new_;
      pendingUnsubscribePatterns := pendingUnsubscribePatterns - new_.Keys;
    }

    /** The pending set is updated before the command goes out. `names` are the arguments,
        None without any; an empty list of names marks nothing but goes out without names
        too. With the connection down the send makes it anew, on_connect included. */
    method UnsubscribeFrom(names: Option<set<string>>, up: bool)
      modifies this
      ensures Value() == DoUnsubscribe(old(Value()), Channel, Tagged(Channel, names), up)
      ensures var marked := if names.None? then old(channels.Keys) else names.value;
        up ==> pendingUnsubscribeChannels == old(pendingUnsubscribeChannels) + marked
      ensures var c := if names.None? || names.value == {} then UnsubscribeAll(Channel) else Unsubscribe(Tag(Channel, names.value));
        up ==> sent == old(sent) + [c]
      ensures channels == old(channels) && patterns == old(patterns)
    {
      ghost var marked := Value().(pending := Value().pending + Marks(Value(), Channel, Tagged(Channel, names)));
      var affected := if names.None? then channels.Keys else names.value;
      TagSets(Channel, pendingUnsubscribeChannels, affected);
      TagKinds(channels.Keys, patterns.Keys);
      pendingUnsubscribeChannels := pendingUnsubscribeChannels + affected;
      assert Value() == marked;
      if !up {
        OnConnect();
      }
      LeaveTagged(Channel, names);
      sent := sent + [if names.None? || names.value == {} then UnsubscribeAll(Channel) else Unsubscribe(Tag(Channel, names.value))];
    }

    method PunsubscribeFrom(names: Option<set<string>>, up: bool)
      modifies this
      ensures Value() == DoUnsubscribe(old(Value()), Pattern, Tagged(Pattern, names), up)
      ensures var marked := if names.None? then old(patterns.Keys) else names.value;
        up ==> pendingUnsubscribePatterns == old(pendingUnsubscribePatterns) + marked
      ensures var c := if names.None? || names.value == {} then UnsubscribeAll(Pattern) else Unsubscribe(Tag(Pattern, names.value));
        up ==> sent == old(sent) + [c]
      ensures channels == old(channels) && patterns == old(patterns)
    {
      ghost var marked := Value().(pending := Value().pending + Marks(Value(), Pattern, Tagged(Pattern, names)));
      var affected := if names.None? then patterns.Keys else names.value;
      TagSets(Pattern, pendingUnsubscribePatterns, affected);
      TagKinds(channels.Keys, patterns.Keys);
      pendingUnsubscribePatterns := pendingUnsubscribePatterns + affected;
      assert Value() == marked;
      if !up {
        OnConnect();
      }
      LeaveTagged(Pattern, names);
      sent := sent + [if names.None? || names.value == {} then UnsubscribeAll(Pattern) else Unsubscribe(Tag(Pattern, names.value))];
    }

    method OnConnect()
      modifies this
      ensures Value() == DoConnect(old(Value()))
      ensures channels == old(channels) && patterns == old(patterns)
    {
      ghost var names := Value().names;
      TagKinds(channels.Keys, patterns.Keys);
      sent := [];
      pendingUnsubscribeChannels := {};
      pendingUnsubscribePatterns := {};
      assert Value() == Client(names, {}, []);
      if channels.Keys != {} {
        SubscribeTo(channels);
      }
      assert Value() == Resubscribed(Client(names, {}, []), OfKind(names, Channel));
      if patterns.Keys != {} {
        PsubscribeTo(patterns);
      }
    }

    /** Returns the handler to call, if the message is a publication with one. */
    method HandleMessage(m: Message) returns (handler: Handler)
      modifies this
      ensures Value() == DoHandle(old(Value()), m)
      ensures channels == if m == Unsubscribed(Name(Channel, m.name.text)) && m.name.text in old(pendingUnsubscribeChannels)
        then old(channels) - {m.name.text} else old(channels)
      ensures patterns == if m == Unsubscribed(Name(Pattern, m.name.text)) && m.name.text in old(pendingUnsubscribePatterns)
        then old(patterns) - {m.name.text} else old(patterns)
      ensures handler == if !m.Published? then 0
        else if m.name.kind == Channel then (if m.name.text in channels then channels[m.name.text] else 0)
        else if m.name.text in patterns then patterns[m.name.text] else 0
    {
      handler := 0;
      if m.Unsubscribed? {
        var x := m.name.text;
        if m.name.kind == Pattern {
          if x in pendingUnsubscribePatterns {
            TagRemoved(Pattern, patterns.Keys, channels.Keys, x);
            TagRemoved(Pattern, pendingUnsubscribePatterns, pendingUnsubscribeChannels, x);
            pendingUnsubscribePatterns := pendingUnsubscribePatterns - {x};
            patterns := patterns - {x};
          }
        } else {
          if x in pendingUnsubscribeChannels {
            TagRemoved(Channel, channels.Keys, patterns.Keys, x);
            TagRemoved(Channel, pendingUnsubscribeChannels, pendingUnsubscribePatterns, x);
            pendingUnsubscribeChannels := pendingUnsubscribeChannels - {x};
            channels := channels - {x};
          }
        }
      } else if m.Published? {
        if m.name.kind == Pattern {
          handler := if m.name.text in patterns then patterns[m.name.text] else 0;
        } else {
          handler := if m.name.text in channels then channels[m.name.text] else 0;
        }
      }
    }
  }

  // ---- client and server over a connection ----

  datatype Net = Net(client: Client, subs: set<Name>, inbox: seq<Message>)

  const Idle := Net(Client({}, {}, []), {}, [])

  datatype Event =
    | Subscribes(names: set<Name>)
    | Unsubscribes(kind: Kind, names: set<Name>)   // the connection is up, and there is a name
    | UnsubscribesAll(kind: Kind)
    | Serves(order: seq<Name>)     // the server takes the oldest command and answers in this order
    | Publishes(name: Name)
    | Handles                      // the client takes the oldest message
    | Reconnects

  predicate Enabled(net: Net, e: Event) {
    match e
    case Serves(order) =>
      net.client.sent != [] && (set n | n in order) == Affected(net.subs, net.client.sent[0])
    case Handles => net.inbox != []
    case Unsubscribes(k, ns) => ns != {}
    case _ => true
  }

  function Answers(c: Command, order: seq<Name>): seq<Message> {
    seq(|order|, i requires 0 <= i < |order| => if c.Subscribe? then Subscribed(order[i]) else Unsubscribed(order[i]))
  }

  function Next(net: Net, e: Event): Net
    requires Enabled(net, e)
  {
    match e
    case Subscribes(ns) => net.(client := DoSubscribe(net.client, ns))
    case Unsubscribes(k, ns) => net.(client := DoUnsubscribe(net.client, k, Some(ns), true))
    case UnsubscribesAll(k) => net.(client := DoUnsubscribe(net.client, k, None, true))
    case Serves(order) =>
      var c := net.client.sent[0];
      Net(net.client.(sent := net.client.sent[1..]), Apply(net.subs, c), net.inbox + Answers(c, order))
    case Publishes(n) => net.(inbox := net.inbox + [Published(n)])
    case Handles => net.(client := DoHandle(net.client, net.inbox[0]), inbox := net.inbox[1..])
    case Reconnects => Net(DoConnect(net.client), {}, [])
  }

  ghost predicate Run(net: Net, es: seq<Event>, net': Net)
    decreases |es|
  {
    if es == [] then net == net' else Enabled(net, es[0]) && Run(Next(net, es[0]), es[1..], net')
  }

  /** What the client counts as subscribed is what the server will have, and every
      pending unsubscription is still to be acknowledged. */
  ghost predicate Inv(net: Net) {
    && net.client.names - net.client.pending == After(net.subs, net.client.sent)
    && forall n :: n in net.client.pending ==> Unsubscribed(n) in net.inbox || Owes(net.subs, net.client.sent, n)
  }

  lemma {:induction false} AfterPush(subs: set<Name>, cmds: seq<Command>, c: Command)
    ensures After(subs, cmds + [c]) == Apply(After(subs, cmds), c)
    ensures forall n :: Owes(subs, cmds, n) ==> Owes(subs, cmds + [c], n)
    ensures forall n :: !c.Subscribe? && n in Affected(After(subs, cmds), c) ==> Owes(subs, cmds + [c], n)
    decreases |cmds|
  {
    if cmds == [] {
      assert cmds + [c] == [c] && [c][1..] == [];
      assert After(Apply(subs, c), []) == Apply(subs, c);
    } else {
      AfterPush(Apply(subs, cmds[0]), cmds[1..], c);
      assert (cmds + [c])[1..] == cmds[1..] + [c];
    }
  }

  lemma InvSend(net: Net, cl: Client, c: Command)
    requires Inv(net) && cl.sent == net.client.sent + [c]
    requires cl.names - cl.pending == Apply(net.client.names - net.client.pending, c)
    requires forall n :: n in cl.pending && n !in net.client.pending ==>
      !c.Subscribe? && n in Affected(net.client.names - net.client.pending, c)
    ensures Inv(net.(client := cl))
  {
    AfterPush(net.subs, net.client.sent, c);
  }

  lemma InvServe(net: Net, order: seq<Name>)
    requires Inv(net) && Enabled(net, Serves(order))
    ensures Inv(Next(net, Serves(order)))
  {
    var c := net.client.sent[0];
    var inbox' := net.inbox + Answers(c, order);
    forall n | n in net.client.pending
      ensures Unsubscribed(n) in inbox' || Owes(Apply(net.subs, c), net.client.sent[1..], n)
    {
      if Unsubscribed(n) in net.inbox {
        assert Unsubscribed(n) in inbox';
      } else if !c.Subscribe? && n in Affected(net.subs, c) {
        assert n in order;
        var i :| 0 <= i < |order| && order[i] == n;
        assert Answers(c, order)[i] == Unsubscribed(n);
        assert inbox'[|net.inbox| + i] == Unsubscribed(n);
      }
    }
  }

  lemma InvHandle(net: Net)
    requires Inv(net) && net.inbox != []
    ensures Inv(Next(net, Handles))
  {
    var m, cl := net.inbox[0], DoHandle(net.client, net.inbox[0]);
    assert cl.names - cl.pending == net.client.names - net.client.pending;
    forall n | n in cl.pending ensures Unsubscribed(n) in net.inbox[1..] || Owes(net.subs, cl.sent, n) {
      if Unsubscribed(n) in net.inbox { assert m != Unsubscribed(n); }
    }
  }

  lemma ConnectAgain(cl: Client)
    ensures DoConnect(cl).names == cl.names && DoConnect(cl).pending == {}
    ensures After({}, DoConnect(cl).sent) == cl.names
  {
    var chans, pats := OfKind(cl.names, Channel), OfKind(cl.names, Pattern);
    assert chans + pats == cl.names;
    var c1 := Resubscribed(Client(cl.names, {}, []), chans);
    assert c1.names == cl.names;
    AfterPush({}, [], Subscribe(chans));
    assert [] + [Subscribe(chans)] == [Subscribe(chans)];
    assert After({}, c1.sent) == chans;
    AfterPush({}, c1.sent, Subscribe(pats));
  }

  lemma InvKept(net: Net, e: Event)
    requires Inv(net) && Enabled(net, e)
    ensures Inv(Next(net, e))
  {
    match e
    case Subscribes(ns) => InvSend(net, DoSubscribe(net.client, ns), Subscribe(ns));
    case Unsubscribes(k, ns) => InvSend(net, DoUnsubscribe(net.client, k, Some(ns), true), Unsubscribe(ns));
    case UnsubscribesAll(k) => InvSend(net, DoUnsubscribe(net.client, k, None, true), UnsubscribeAll(k));
    case Serves(order) => InvServe(net, order);
    case Publishes(n) =>
    case Handles => InvHandle(net);
    case Reconnects => ConnectAgain(net.client);
  }

  lemma {:induction false} InvRun(net: Net, es: seq<Event>, net': Net)
    requires Inv(net) && Run(net, es, net')
    ensures Inv(net')
    decreases |es|
  {
    if es != [] {
      InvKept(net, es[0]);
      InvRun(Next(net, es[0]), es[1..], net');
    }
  }

  /** At any moment of any run the client's tables, less what is pending, are the set the
      server has once it has processed everything sent; with nothing in flight nothing
      is pending and the tables are the server's set, for channels and for patterns. */
  lemma Converges(es: seq<Event>, net: Net)
    requires Run(Idle, es, net)
    ensures net.client.names - net.client.pending == After(net.subs, net.client.sent)
    ensures net.client.sent == [] && net.inbox == [] ==> net.client.pending == {} && net.client.names == net.subs
  {
    InvRun(Idle, es, net);
  }

  // ---- unsubscriptions that go wrong ----

  /** The call on a connection that is gone: what was in flight is gone with it. */
  function UnsubscribeReconnecting(net: Net, k: Kind, names: Option<set<Name>>): Net {
    Net(DoUnsubscribe(net.client, k, names, false), {}, [])
  }

  /** The client's view survives iff no name that is left was in its tables. */
  lemma ReconnectingUnsubscribeIff(net: Net, k: Kind, names: Option<set<Name>>)
    ensures Inv(UnsubscribeReconnecting(net, k, names)) <==>
      net.client.names !! if names.None? || names.value == {} then OfKind(net.client.names, k) else names.value
  {
    var marked := net.client.(pending := net.client.pending + Marks(net.client, k, names));
    var left := if names.None? || names.value == {} then OfKind(net.client.names, k) else names.value;
    ConnectAgain(marked);
    AfterPush({}, DoConnect(marked).sent, Leave(k, names));
    assert Apply(net.client.names, Leave(k, names)) == net.client.names - left;
  }

  /** A call with an empty list of names marks nothing, but the server takes it for all of
      them: on a connection that is up the view survives iff there was nothing to leave. */
  lemma EmptyUnsubscribeIff(net: Net, k: Kind)
    requires Inv(net)
    ensures Inv(net.(client := DoUnsubscribe(net.client, k, Some({}), true))) <==>
      OfKind(net.client.names - net.client.pending, k) == {}
  {
    var view := net.client.names - net.client.pending;
    AfterPush(net.subs, net.client.sent, UnsubscribeAll(k));
    assert net.client.pending + {} == net.client.pending;
    assert Apply(view, UnsubscribeAll(k)) == view - OfKind(view, k);
  }

  predicate Delivers(e: Event) { e.Serves? || e.Publishes? || e.Handles? }

  /** Deliveries alone never repair it: the name stays in the table although the server
      has dropped it. */
  lemma {:induction false} StaleForever(net: Net, es: seq<Event>, net': Net, n: Name)
    requires Run(net, es, net') && forall e :: e in es ==> Delivers(e)
    requires n in net.client.names && n !in net.client.pending && n !in After(net.subs, net.client.sent)
    ensures n in net'.client.names
    ensures net'.client.sent == [] ==> n !in net'.subs
    decreases |es|
  {
    if es != [] {
      assert es[0] in es;
      assert forall e :: e in es[1..] ==> e in es;
      StaleForever(Next(net, es[0]), es[1..], net', n);
    }
  }
}
