/** How a host process gets its two channels joined up: the first handshake makes a client and
    names its number, the second brings the callback channel to the client of that number. */
module Handshake {
  import opened Bytes
  import opened Framing
  import opened ClientState
  import opened Bridge

  const MSG_HANDSHAKE: byte := 5
  const MSG_HANDSHAKE_ACK: byte := 6

  function Hello(id: uint32): Msg {
    Msg(MSG_HANDSHAKE, Be32(id))
  }

  function Ack(id: uint32): Msg {
    Msg(MSG_HANDSHAKE_ACK, Be32(id))
  }

  /** The number in a message of the kind expected; longer messages are accepted. */
  function NumberIn(m: Msg, kind: byte): Option<uint32> {
    if m.kind != kind || |m.data| < 4 then None else Some(BeAt(m.data, 0, 4))
  }

  lemma NumberRoundTrip(id: uint32, rest: seq<byte>)
    ensures NumberIn(Hello(id), MSG_HANDSHAKE) == Some(id) && NumberIn(Ack(id), MSG_HANDSHAKE_ACK) == Some(id)
    ensures ParseMsg(FrameBytes(Hello(id)) + rest) == Some(Parsed(Hello(id), rest))
    ensures ParseMsg(FrameBytes(Ack(id)) + rest) == Some(Parsed(Ack(id), rest))
  {
    assert Be32(id)[0..4] == Be32(id);
    Be32RoundTrip(id, Be32(id), 0);
    FrameParsesIff(Hello(id), rest);
    FrameParsesIff(Ack(id), rest);
  }

  /** do_handshake: the request, and the number that came back. */
  method DoHandshake(out: Stream, back: Stream, id: uint32) returns (given: Option<uint32>)
    requires out != back
    modifies out, back
    ensures Broken !in old(out.turns) ==> out.bytes == old(out.bytes) + FrameBytes(Hello(id))
    ensures Broken !in old(out.turns) && Broken !in old(back.turns) ==>
      match ParseMsg(old(back.bytes))
      case None => given == None
      case Some(p) => given == NumberIn(p.msg, MSG_HANDSHAKE_ACK) && back.bytes == p.rest
  {
    var ok := WriteMsg(out, Hello(id));
    if !ok {
      return None;
    }
    var m := ReadMsg(back);
    given := if m.None? then None else NumberIn(m.value, MSG_HANDSHAKE_ACK);
  }

  // --------------------------------------------------------------------- the acceptor

  /** What becomes of a connection. */
  datatype Accepted = Closed | Created(node: ClientNode) | Joined(node: ClientNode)

  class Acceptor {
    const list: ClientList
    var nextClientId: uint32

    /** Registered clients have distinct numbers below the next, and their own memory. */
    ghost predicate Valid()
      reads this, list, list.spine`next
    {
      && list.Valid() && nextClientId > 0
      && (forall i :: 0 <= i < |list.spine| ==> list.spine[i].Valid() && 0 < list.spine[i].clientId < nextClientId)
      && (forall i, j :: 0 <= i < j < |list.spine| ==> Separate(list.spine[i], list.spine[j]))
    }

    constructor ()
      ensures Valid() && fresh(list) && list.spine == [] && nextClientId == 1
    {
      list := new ClientList();
      nextClientId := 1;
    }

    /** A connection's first message, and what is sent back. A client is registered before its
        number goes out; a callback channel is acknowledged before it is joined to its
        client, or closed when there is no such client. */
    method Accept(m: Msg, fd: int) returns (r: Accepted, reply: Option<Msg>)
      requires Valid() && nextClientId < TWO32 - 1
      modifies this, list, list.spine`cbFd, (set n | n in list.spine :: n.slots)
      ensures Valid()
      ensures NumberIn(m, MSG_HANDSHAKE) == None ==> r == Closed && reply == None && list.spine == old(list.spine)
      ensures NumberIn(m, MSG_HANDSHAKE) == Some(0) ==>
        && r.Created? && fresh(r.node) && list.spine == [r.node] + old(list.spine)
        && fresh(r.node.slots) && reply == Some(Ack(old(nextClientId)))
        && r.node.clientId == old(nextClientId) && nextClientId == old(nextClientId) + 1
        && r.node.Value() == ClientState.NewClient()
      ensures NumberIn(m, MSG_HANDSHAKE).Some? && NumberIn(m, MSG_HANDSHAKE) != Some(0) ==>
        && !r.Created? && list.spine == old(list.spine) && reply == Some(Ack(NumberIn(m, MSG_HANDSHAKE).value))
        && (r == Closed <==> forall i :: 0 <= i < |list.spine| ==> list.spine[i].clientId != NumberIn(m, MSG_HANDSHAKE).value)
        && (r.Joined? ==> r.node in list.spine && r.node.clientId == NumberIn(m, MSG_HANDSHAKE).value
                          && r.node.Value() == Associate(old(r.node.Value()), fd))
      ensures r.Joined? ==> r.node.cbFd == fd && forall i :: 0 <= i < r.node.slots.Length ==>
        var was := old(r.node.slots[..])[i];
        r.node.slots[i] == if was.id == 0 then was else was.(cbFd := fd)
      ensures forall i :: 0 <= i < |old(list.spine)| && r != Joined(old(list.spine)[i]) ==>
        old(list.spine)[i].cbFd == old(list.spine[i].cbFd) && old(list.spine)[i].slots[..] == old(list.spine[i].slots[..])
    {
      var id := NumberIn(m, MSG_HANDSHAKE);
      if id.None? {
        return Closed, None;
      }
      if id.value == 0 {
        var node := Admit();
        r, reply := Created(node), Some(Ack(node.clientId));
      } else {
        reply := Some(Ack(id.value));
        r := Join(id.value, fd);
        if r.Joined? {
          AssociateIs(old(r.node.Value()), fd);
        }
      }
    }

    /** The callback channel `fd` goes to the client of that number. */
    method Join(id: uint32, fd: int) returns (r: Accepted)
      requires Valid()
      modifies list.spine`cbFd, (set n | n in list.spine :: n.slots)
      ensures Valid() && !r.Created?
      ensures r == Closed <==> forall i :: 0 <= i < |list.spine| ==> list.spine[i].clientId != id
      ensures r.Joined? ==> r.node in list.spine && r.node.clientId == id && r.node.Value() == Associate(old(r.node.Value()), fd)
      ensures forall i :: 0 <= i < |list.spine| && r != Joined(list.spine[i]) ==>
        list.spine[i].cbFd == old(list.spine[i].cbFd) && list.spine[i].slots[..] == old(list.spine[i].slots[..])
    {
      var found, k := list.FindById(id);
      if found == null {
        return Closed;
      }
      GiveChannel(found, k, fd);
      r := Joined(found);
    }

    method GiveChannel(node: ClientNode, ghost k: nat, fd: int)
      requires Valid() && k < |list.spine| && node == list.spine[k]
      modifies node`cbFd, node.slots
      ensures Valid() && node.Value() == Associate(old(node.Value()), fd)
      ensures forall i :: 0 <= i < |list.spine| && i != k ==>
        list.spine[i].cbFd == old(list.spine[i].cbFd) && list.spine[i].slots[..] == old(list.spine[i].slots[..])
    {
      OthersSeparate(list.spine, k);
      node.AssociateChannel(fd);
    }

    method Admit() returns (node: ClientNode)
      requires Valid() && nextClientId < TWO32 - 1
      modifies this, list
      ensures Valid() && fresh(node) && fresh(node.slots) && list.spine == [node] + old(list.spine)
      ensures node.clientId == old(nextClientId) && node.Value() == ClientState.NewClient() && nextClientId == old(nextClientId) + 1
    {
      node := new ClientNode(nextClientId);
      nextClientId := nextClientId + 1;
      list.Register(node);
    }
  }

  predicate ApartFrom(n: ClientNode, m: ClientNode) {
    m != n ==> m.slots != n.slots
  }

  lemma OthersSeparate(ns: seq<ClientNode>, k: nat)
    requires k < |ns| && forall i, j :: 0 <= i < j < |ns| ==> Separate(ns[i], ns[j])
    ensures forall i :: 0 <= i < |ns| ==> ApartFrom(ns[k], ns[i])
  {
    forall i | 0 <= i < |ns| ensures ApartFrom(ns[k], ns[i]) {
      assert i < k ==> Separate(ns[i], ns[k]);
      assert k < i ==> Separate(ns[k], ns[i]);
    }
  }

  predicate Separate(m: ClientNode, n: ClientNode) {
    m.clientId != n.clientId && m.slots != n.slots
  }

  /** A process that says hello on its first connection is told the number of the client
      created for it. */
  method FirstHandshake(a: Acceptor) returns (node: ClientNode, given: uint32)
    requires a.Valid() && a.nextClientId < TWO32 - 2
    modifies a, a.list, a.list.spine`cbFd, (set n | n in a.list.spine :: n.slots)
    ensures a.Valid() && a.nextClientId == old(a.nextClientId) + 1 && fresh(node) && fresh(node.slots)
    ensures a.list.spine == [node] + old(a.list.spine)
    ensures given == node.clientId == old(a.nextClientId) && node.Value() == ClientState.NewClient()
  {
    NumberRoundTrip(0, []);
    var r, ack := a.Accept(Hello(0), -1);
    node := r.node;
    NumberRoundTrip(node.clientId, []);
    given := NumberIn(ack.value, MSG_HANDSHAKE_ACK).value;
  }

  /** The two handshakes of one process: the channel it brings second is joined to the client
      it was made first, and to no other, whatever clients there were before. */
  method Connect(a: Acceptor, fd: int) returns (r: Accepted, given: uint32)
    requires a.Valid() && a.nextClientId < TWO32 - 2
    modifies a, a.list, a.list.spine`cbFd, (set n | n in a.list.spine :: n.slots)
    ensures a.Valid() && given == old(a.nextClientId)
    ensures r.Joined? && fresh(r.node) && a.list.spine == [r.node] + old(a.list.spine)
    ensures r.node.clientId == given && r.node.cbFd == fd
    ensures r.node.Value() == ClientState.NewClient().(cbFd := fd)
  {
    var node;
    node, given := FirstHandshake(a);
    assert a.list.spine[0] == node;
    OwnNumber(a.list.spine, given);
    NumberRoundTrip(given, []);
    var ack;
    r, ack := a.Accept(Hello(given), fd);
    FreshStays(fd);
  }

  lemma FreshStays(fd: int)
    ensures Associate(ClientState.NewClient(), fd) == ClientState.NewClient().(cbFd := fd)
  {
    AssociateIs(ClientState.NewClient(), fd);
    assert Associate(ClientState.NewClient(), fd).slots == ClientState.NewClient().slots;
  }

  /** Numbers are distinct, so only the first client has the first client's. */
  lemma OwnNumber(ns: seq<ClientNode>, id: uint32)
    requires ns != [] && ns[0].clientId == id && forall i, j :: 0 <= i < j < |ns| ==> Separate(ns[i], ns[j])
    ensures forall n :: n in ns && n.clientId == id ==> n == ns[0]
  {
    assert forall j :: 0 < j < |ns| ==> Separate(ns[0], ns[j]);
  }
}
