/**
 The network between an echo client and an honest echo server: it may lose, delay and reorder, but
 neither duplicates nor alters.
 */
module EchoNet {
  import opened Machine

  /** recv_buf of either client. */
  const RECV_BUF_SIZE := 1280

  datatype Net = Net(
    requests: seq<seq<byte>>,
    replies: seq<seq<byte>>,
    sent: nat,
    lostRequests: nat,
    echoed: nat,
    lostReplies: nat,
    delivered: nat)

  const QUIET := Net([], [], 0, 0, 0, 0, 0)

  /** The index says which packet: any one may be next. */
  datatype NetAction = LoseRequest(i: nat) | Echo(i: nat) | LoseReply(i: nat)

  function Without<T>(q: seq<T>, i: nat): seq<T> {
    if i < |q| then q[..i] + q[i + 1..] else q
  }

  function Carry(net: Net, a: NetAction): Net {
    match a
    case LoseRequest(i) =>
      if i >= |net.requests| then net
      else net.(requests := Without(net.requests, i), lostRequests := net.lostRequests + 1)
    case Echo(i) =>
      if i >= |net.requests| then net
      else net.(requests := Without(net.requests, i),
                replies := net.replies + [net.requests[i]],
                echoed := net.echoed + 1)
    case LoseReply(i) =>
      if i >= |net.replies| then net
      else net.(replies := Without(net.replies, i), lostReplies := net.lostReplies + 1)
  }

  function Send(net: Net, payload: seq<byte>): Net {
    net.(requests := net.requests + [payload], sent := net.sent + 1)
  }

  function Deliver(net: Net, i: nat): Net {
    if i >= |net.replies| then net
    else net.(replies := Without(net.replies, i), delivered := net.delivered + 1)
  }

  /** A packet of an echo client is a non-empty prefix of its text. */
  predicate IsPrefix(payload: seq<byte>, text: seq<byte>) {
    0 < |payload| <= |text| && payload == text[..|payload|]
  }

  predicate AllPrefixes(q: seq<seq<byte>>, text: seq<byte>) {
    forall i :: 0 <= i < |q| ==> IsPrefix(q[i], text)
  }

  /** Every packet sent is in exactly one place. */
  predicate Conserved(net: Net) {
    && net.sent == net.lostRequests + |net.requests| + net.echoed
    && net.echoed == net.lostReplies + |net.replies| + net.delivered
  }

  predicate NetInv(net: Net, text: seq<byte>) {
    AllPrefixes(net.requests, text) && AllPrefixes(net.replies, text) && Conserved(net)
  }

  lemma WithoutPrefixes(q: seq<seq<byte>>, i: nat, text: seq<byte>)
    requires AllPrefixes(q, text)
    ensures AllPrefixes(Without(q, i), text)
    ensures i < |q| ==> |Without(q, i)| == |q| - 1
  {
  }

  lemma CarryKeeps(net: Net, a: NetAction, text: seq<byte>)
    requires NetInv(net, text)
    ensures NetInv(Carry(net, a), text)
  {
    WithoutPrefixes(net.requests, a.i, text);
    WithoutPrefixes(net.replies, a.i, text);
  }

  lemma SendKeeps(net: Net, payload: seq<byte>, text: seq<byte>)
    requires NetInv(net, text) && IsPrefix(payload, text)
    ensures NetInv(Send(net, payload), text)
  {
  }

  lemma DeliverKeeps(net: Net, i: nat, text: seq<byte>)
    requires NetInv(net, text)
    ensures NetInv(Deliver(net, i), text)
  {
    WithoutPrefixes(net.replies, i, text);
  }

  /** What a step of the network moves: it forgets a packet, or the server answers one with the same bytes. */
  lemma CarryMoves(net: Net, a: NetAction)
    ensures
      var t := Carry(net, a);
      match a
      case LoseRequest(i) =>
        i < |net.requests| ==> t.requests == net.requests[..i] + net.requests[i + 1..] && t.replies == net.replies
      case Echo(i) =>
        i < |net.requests| ==>
          t.requests == net.requests[..i] + net.requests[i + 1..] && t.replies == net.replies + [net.requests[i]]
      case LoseReply(i) =>
        i < |net.replies| ==> t.requests == net.requests && t.replies == net.replies[..i] + net.replies[i + 1..]
  {
  }
}
