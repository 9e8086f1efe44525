/** The hub's process state as one immutable record, and what a step of the
    hub produces: the next state and the messages sent on sockets. */
module HubModel {
  import opened Wrappers
  import opened Protocol

  /** The transport-level id of one open socket. */
  type SocketId = string

  /** Credited to a validator for every verified probe reply. */
  const COST_PER_VALIDATION: nat := 100

  /** The location recorded for a validator created at signup. */
  const UNKNOWN_LOCATION: string := "unknown"

  /** One entry of the connection registry (`availableValidators`). */
  datatype Connection = Connection(validatorId: string, socket: SocketId, publicKey: string)

  /** A row of the validator store. */
  datatype Validator = Validator(id: string, ip: string, publicKey: string, location: string, pendingPayouts: int)

  /** A row of the website store. */
  datatype Website = Website(id: string, url: string, disabled: bool)

  /** A row of the tick store; its id and creation time are left out. */
  datatype WebsiteTick = WebsiteTick(websiteId: string, validatorId: string, status: Status, latency: int)

  /** What the completion handler registered for one probe captures: its
      callback id, the website probed, and the public key of the registry
      entry the probe went to. */
  datatype PendingProbe = PendingProbe(callbackId: string, websiteId: string, url: string, publicKey: string)

  /** The whole hub: registry, correlation table, and the three stores. The
      validator and website stores are in insertion order. */
  datatype HubState = HubState(
    registry: seq<Connection>,
    callbacks: map<string, PendingProbe>,
    validators: seq<Validator>,
    websites: seq<Website>,
    ticks: seq<WebsiteTick>)

  /** A message the hub writes to one socket. */
  datatype Send = Send(socket: SocketId, message: ToValidator)

  /** The state after an event, with the messages sent while handling it. */
  datatype Outcome = Outcome(hub: HubState, sent: seq<Send>)

  /** Some row of the store has this id. */
  predicate HasValidator(vs: seq<Validator>, id: string) {
    exists k :: 0 <= k < |vs| && vs[k].id == id
  }

  /** Some row of the store has this public key. */
  predicate HasPublicKey(vs: seq<Validator>, publicKey: string) {
    exists k :: 0 <= k < |vs| && vs[k].publicKey == publicKey
  }

  /** No two rows of the store share a validator id. */
  predicate UniqueIds(vs: seq<Validator>) {
    forall a, b :: 0 <= a < b < |vs| ==> vs[a].id != vs[b].id
  }

  /** No two rows of the store share a public key. */
  predicate UniqueKeys(vs: seq<Validator>) {
    forall a, b :: 0 <= a < b < |vs| ==> vs[a].publicKey != vs[b].publicKey
  }

  /** Some row of the website store has this id (a tick names its website by
      id alone). */
  predicate HasWebsiteId(ws: seq<Website>, id: string) {
    exists k :: 0 <= k < |ws| && ws[k].id == id
  }

  /** Some row of the website store has this id and url (a pending probe
      captures both). */
  predicate HasWebsite(ws: seq<Website>, id: string, url: string) {
    exists k :: 0 <= k < |ws| && ws[k].id == id && ws[k].url == url
  }

  /** The number of rows of the store with this public key. */
  function CountPublicKey(vs: seq<Validator>, publicKey: string): (n: nat)
    ensures n <= |vs|
    ensures n == 0 <==> !HasPublicKey(vs, publicKey)
  {
    if vs == [] then 0
    else (if vs[0].publicKey == publicKey then 1 else 0) + CountPublicKey(vs[1..], publicKey)
  }

  /** The sum of all pending payouts in the store. */
  function TotalPayouts(vs: seq<Validator>): int {
    if vs == [] then 0 else vs[0].pendingPayouts + TotalPayouts(vs[1..])
  }
}
