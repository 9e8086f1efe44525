/** The hub's `disconnect` handler: the registry entry for the closed socket
    is found by socket id (the first one only) and spliced out. */
module HubRegistry {
  import opened Wrappers
  import opened HubModel

  /** The position of the first registry entry on this socket (findIndex). */
  function FindSocket(reg: seq<Connection>, socket: SocketId): (r: Option<nat>)
    ensures r.Some? ==> r.value < |reg| && reg[r.value].socket == socket
    ensures r.Some? ==> forall k :: 0 <= k < r.value ==> reg[k].socket != socket
    ensures r.None? <==> forall k :: 0 <= k < |reg| ==> reg[k].socket != socket
  {
    if reg == [] then None
    else if reg[0].socket == socket then Some(0)
    else
      match FindSocket(reg[1..], socket)
      case None => None
      case Some(i) => Some(i + 1)
  }

  /** The registry after `socket` closes: only the first entry on that
      socket goes; the others keep their order; the rest of the hub is
      untouched. */
  function HandleDisconnect(h: HubState, socket: SocketId): (r: HubState)
    ensures (forall k :: 0 <= k < |h.registry| ==> h.registry[k].socket != socket) ==> r == h
    ensures forall i :: 0 <= i < |h.registry| && h.registry[i].socket == socket
                        && (forall k :: 0 <= k < i ==> h.registry[k].socket != socket)
                        ==> r == h.(registry := h.registry[..i] + h.registry[i + 1..])
  {
    match FindSocket(h.registry, socket)
    case None => h
    case Some(i) => h.(registry := h.registry[..i] + h.registry[i + 1..])
  }

  /** The number of registry entries on a socket. */
  function CountSocket(reg: seq<Connection>, socket: SocketId): (n: nat)
    ensures n <= |reg|
  {
    if reg == [] then 0
    else (if reg[0].socket == socket then 1 else 0) + CountSocket(reg[1..], socket)
  }

  lemma {:induction false} CountSocketSplit(a: seq<Connection>, b: seq<Connection>, socket: SocketId)
    ensures CountSocket(a + b, socket) == CountSocket(a, socket) + CountSocket(b, socket)
  {
    if a != [] {
      assert (a + b)[1..] == a[1..] + b;
      CountSocketSplit(a[1..], b, socket);
    } else {
      assert a + b == b;
    }
  }

  lemma {:induction false} CountSocketZero(reg: seq<Connection>, socket: SocketId)
    ensures CountSocket(reg, socket) == 0 <==> forall k :: 0 <= k < |reg| ==> reg[k].socket != socket
  {
    if reg != [] {
      CountSocketZero(reg[1..], socket);
      assert forall k :: 1 <= k < |reg| ==> reg[k] == reg[1..][k - 1];
    }
  }

  /** A disconnect removes exactly one entry for the socket when there is
      one, and changes nothing otherwise. */
  lemma {:induction false} DisconnectRemovesOne(h: HubState, socket: SocketId)
    ensures var r := HandleDisconnect(h, socket);
            && CountSocket(r.registry, socket) == (if CountSocket(h.registry, socket) == 0 then 0
                                                   else CountSocket(h.registry, socket) - 1)
            && |r.registry| == |h.registry| - (if CountSocket(h.registry, socket) == 0 then 0 else 1)
  {
    var reg := h.registry;
    CountSocketZero(reg, socket);
    match FindSocket(reg, socket)
    case None =>
    case Some(i) =>
      assert reg == reg[..i] + [reg[i]] + reg[i + 1..];
      CountSocketSplit(reg[..i] + [reg[i]], reg[i + 1..], socket);
      CountSocketSplit(reg[..i], [reg[i]], socket);
      CountSocketSplit(reg[..i], reg[i + 1..], socket);
      CountSocketZero(reg[..i], socket);
      assert [reg[i]][1..] == [];
  }

  /** A disconnect leaves every other socket with all its entries. */
  lemma {:induction false} DisconnectKeepsOthers(h: HubState, socket: SocketId, other: SocketId)
    requires other != socket
    ensures CountSocket(HandleDisconnect(h, socket).registry, other) == CountSocket(h.registry, other)
  {
    var reg := h.registry;
    match FindSocket(reg, socket)
    case None =>
    case Some(i) =>
      assert reg == reg[..i] + [reg[i]] + reg[i + 1..];
      CountSocketSplit(reg[..i] + [reg[i]], reg[i + 1..], other);
      CountSocketSplit(reg[..i], [reg[i]], other);
      CountSocketSplit(reg[..i], reg[i + 1..], other);
      assert [reg[i]][1..] == [];
  }
}
