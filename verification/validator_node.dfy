/** The validator node's state machine. Until the hub's signup answer arrives
    the node has no validator id and queues `validate` requests; the answer
    sets the id and drains the queue in arrival order. Each request is
    answered with a signed reply whose status and latency come from one HTTP
    fetch of the url. */
module ValidatorNode {
  import opened Wrappers
  import opened SignatureWire
  import opened Protocol

  /** The ip the node reports at signup. */
  const NODE_IP: string := "127.0.0.1"

  /** The latency reported when the fetch throws. */
  const FALLBACK_LATENCY: int := 1000

  /** The HTTP status that counts as up. */
  const HTTP_OK: int := 200

  /** The key the signup answer is looked up under: the answer's `callback`
      field, which the hub's message does not carry, reads as undefined and
      becomes this property name. */
  const MISSING_FIELD_KEY: string := "undefined"

  /** What one fetch of a url gave: a response with its status code and the
      elapsed milliseconds, or an exception. */
  datatype FetchOutcome = Responded(httpStatus: int, latency: int) | FetchFailed

  /** The node's process state: its validator id (None until assigned), the
      ids of its signup callbacks, and the queued requests. */
  datatype NodeState = NodeState(validatorId: Option<string>, callbacks: set<string>, pending: seq<ProbeRequest>)

  /** The state after an event, with the messages sent to the hub. */
  datatype NodeOutcome = NodeOutcome(node: NodeState, sent: seq<ToHub>)

  /** The node as it starts. */
  const Start: NodeState := NodeState(None, {}, [])

  /** The `connect` handler: registers a signup callback under a fresh id and
      sends the signup, signed over the signup text for that id and the
      node's own public key. */
  function OnConnect(n: NodeState, keys: KeyPair, callbackId: string): (o: NodeOutcome)
    ensures o.node == n.(callbacks := n.callbacks + {callbackId})
    ensures |o.sent| == 1 && o.sent[0].SignupMsg?
    ensures var req := o.sent[0].signup;
            && req.callbackId == callbackId && req.publicKey == keys.publicKey && req.ip == NODE_IP
            && req.signedMessage == SignMessage(keys, SignupText(callbackId, keys.publicKey))
  {
    var signed := SignMessage(keys, SignupText(callbackId, keys.publicKey));
    NodeOutcome(
      n.(callbacks := n.callbacks + {callbackId}),
      [SignupMsg(SignupRequest(NODE_IP, keys.publicKey, signed, callbackId))])
  }

  /** The reported status and latency for one fetch. */
  function Classify(outcome: FetchOutcome): (r: (Status, int))
    ensures r.0 == Good <==> outcome.Responded? && outcome.httpStatus == HTTP_OK
    ensures outcome.Responded? ==> r.1 == outcome.latency
    ensures outcome.FetchFailed? ==> r == (Bad, FALLBACK_LATENCY)
  {
    match outcome
    case Responded(code, latency) => (if code == HTTP_OK then Good else Bad, latency)
    case FetchFailed => (Bad, FALLBACK_LATENCY)
  }

  /** validateHandler: nothing when the node has no validator id; otherwise
      the reply to the request, signed over the reply text for its callback
      id. */
  function ValidateHandler(validatorId: Option<string>, req: ProbeRequest, keys: KeyPair, outcome: FetchOutcome)
    : (r: Option<ValidateReply>)
    ensures r.None? <==> !Present(validatorId)
    ensures r.Some? ==>
              && r.value.callbackId == req.callbackId
              && r.value.websiteId == req.websiteId
              && r.value.validatorId == validatorId
              && r.value.signedMessage == SignMessage(keys, ReplyText(req.callbackId))
              && (r.value.status == Good <==> outcome.Responded? && outcome.httpStatus == HTTP_OK)
              && (outcome.FetchFailed? ==> r.value.latency == FALLBACK_LATENCY)
              && (outcome.Responded? ==> r.value.latency == outcome.latency)
  {
    if !Present(validatorId) then None
    else
      var signature := SignMessage(keys, ReplyText(req.callbackId));
      var (status, latency) := Classify(outcome);
      Some(ValidateReply(req.callbackId, status, latency, req.websiteId, validatorId, signature))
  }

  /** The messages one call of validateHandler sends. */
  function Replies(validatorId: Option<string>, req: ProbeRequest, keys: KeyPair, outcome: FetchOutcome): seq<ToHub> {
    match ValidateHandler(validatorId, req, keys, outcome)
    case None => []
    case Some(reply) => [ValidateMsg(reply)]
  }

  /** The `validate` branch: queue the request while the node has no validator
      id, answer it otherwise. */
  function OnValidate(n: NodeState, req: ProbeRequest, keys: KeyPair, outcome: FetchOutcome): (o: NodeOutcome)
    ensures !Present(n.validatorId) ==> o.node == n.(pending := n.pending + [req]) && o.sent == []
    ensures Present(n.validatorId) ==>
              o.node == n && o.sent == [ValidateMsg(ValidateHandler(n.validatorId, req, keys, outcome).value)]
  {
    if !Present(n.validatorId) then NodeOutcome(n.(pending := n.pending + [req]), [])
    else NodeOutcome(n, Replies(n.validatorId, req, keys, outcome))
  }

  /** The replies sent while draining `queue` front to back, the k-th request
      fetched with the k-th outcome. */
  function DrainReplies(validatorId: Option<string>, queue: seq<ProbeRequest>, outcomes: seq<FetchOutcome>, keys: KeyPair)
    : (r: seq<ToHub>)
    requires |outcomes| == |queue|
    ensures !Present(validatorId) ==> r == []
    ensures Present(validatorId) ==> |r| == |queue|
  {
    if queue == [] then []
    else Replies(validatorId, queue[0], keys, outcomes[0]) + DrainReplies(validatorId, queue[1..], outcomes[1..], keys)
  }

  /** Draining answers the queue in arrival order: the k-th message sent is
      the reply to the k-th queued request. */
  lemma {:induction false} DrainInOrder(validatorId: Option<string>, queue: seq<ProbeRequest>, outcomes: seq<FetchOutcome>, keys: KeyPair)
    requires |outcomes| == |queue| && Present(validatorId)
    ensures forall k :: 0 <= k < |queue| ==>
              DrainReplies(validatorId, queue, outcomes, keys)[k]
              == ValidateMsg(ValidateHandler(validatorId, queue[k], keys, outcomes[k]).value)
  {
    if queue != [] {
      DrainInOrder(validatorId, queue[1..], outcomes[1..], keys);
      forall k | 1 <= k < |queue|
        ensures queue[1..][k - 1] == queue[k] && outcomes[1..][k - 1] == outcomes[k]
      {
      }
    }
  }

  /** The drain loop as the handler runs it: shift the head off the queue and
      handle it, until the queue is empty. */
  method DrainQueue(validatorId: Option<string>, queue: seq<ProbeRequest>, outcomes: seq<FetchOutcome>, keys: KeyPair)
    returns (sent: seq<ToHub>, rest: seq<ProbeRequest>)
    requires |outcomes| == |queue|
    ensures rest == []
    ensures sent == DrainReplies(validatorId, queue, outcomes, keys)
  {
    sent, rest := [], queue;
    var i := 0;
    while |rest| > 0
      invariant 0 <= i <= |queue| && rest == queue[i..]
      invariant sent + DrainReplies(validatorId, rest, outcomes[i..], keys) == DrainReplies(validatorId, queue, outcomes, keys)
      decreases |rest|
    {
      var head := rest[0];
      assert outcomes[i..][1..] == outcomes[i + 1..];
      assert DrainReplies(validatorId, rest, outcomes[i..], keys)
             == Replies(validatorId, head, keys, outcomes[i]) + DrainReplies(validatorId, rest[1..], outcomes[i + 1..], keys);
      rest := rest[1..];
      sent := sent + Replies(validatorId, head, keys, outcomes[i]);
      i := i + 1;
    }
  }

  /** The `signup` branch: the callback lookup uses the absent `callback`
      field, the validator id is set, and the queue is drained. */
  function OnSignupAck(n: NodeState, validatorId: string, keys: KeyPair, outcomes: seq<FetchOutcome>): (o: NodeOutcome)
    requires |outcomes| == |n.pending|
    ensures o.node.validatorId == Some(validatorId)
    ensures o.node.pending == []
    ensures forall id :: id in n.callbacks && id != MISSING_FIELD_KEY ==> id in o.node.callbacks
    ensures o.node.callbacks <= n.callbacks
    ensures validatorId == "" ==> o.sent == []
  {
    NodeOutcome(
      NodeState(Some(validatorId), n.callbacks - {MISSING_FIELD_KEY}, []),
      DrainReplies(Some(validatorId), n.pending, outcomes, keys))
  }

  /** The signup answer never consumes the signup callback registered on
      connect: the lookup uses a field the answer does not carry. */
  lemma SignupCallbackStays(n: NodeState, keys: KeyPair, callbackId: string, validatorId: string,
                            outcomes: seq<FetchOutcome>)
    requires callbackId != MISSING_FIELD_KEY
    requires |outcomes| == |n.pending|
    ensures var connected := OnConnect(n, keys, callbackId).node;
            callbackId in OnSignupAck(connected, validatorId, keys, outcomes).node.callbacks
  {
  }

  /** The events of the node: the socket connects (with the fresh signup
      callback id), a message arrives from the hub (with the outcomes of the
      fetches it triggers, one per request handled), or the socket drops. */
  datatype NodeEvent =
    | Connected(callbackId: string)
    | Received(message: ToValidator, outcomes: seq<FetchOutcome>)
    | Dropped

  /** One fetch outcome is supplied per request the event answers. */
  predicate NodeAdmissible(n: NodeState, e: NodeEvent) {
    match e
    case Received(SignupAck(_, _), outcomes) => |outcomes| == |n.pending|
    case Received(Validate(_), outcomes) => |outcomes| == 1
    case _ => true
  }

  /** One step of the node. A dropped socket only logs. */
  function NodeStep(n: NodeState, e: NodeEvent, keys: KeyPair): (o: NodeOutcome)
    requires NodeAdmissible(n, e)
    ensures e.Dropped? ==> o == NodeOutcome(n, [])
    ensures e.Connected? ==> |o.sent| == 1 && o.sent[0].SignupMsg?
    ensures e.Received? && e.message.Validate? ==> |o.sent| <= 1
    ensures e.Received? && e.message.SignupAck? ==> o.node.pending == [] && |o.sent| <= |n.pending|
    ensures !e.Connected? ==> o.node.callbacks <= n.callbacks
  {
    match e
    case Connected(callbackId) => OnConnect(n, keys, callbackId)
    case Received(SignupAck(validatorId, _), outcomes) => OnSignupAck(n, validatorId, keys, outcomes)
    case Received(Validate(req), outcomes) => OnValidate(n, req, keys, outcomes[0])
    case Dropped => NodeOutcome(n, [])
  }

  /** The node's state after a run of events, with everything it sent. */
  function NodeRun(n: NodeState, es: seq<NodeEvent>, keys: KeyPair): NodeOutcome
    decreases |es|
  {
    if es == [] || !NodeAdmissible(n, es[0]) then NodeOutcome(n, [])
    else
      var o := NodeStep(n, es[0], keys);
      var rest := NodeRun(o.node, es[1..], keys);
      NodeOutcome(rest.node, o.sent + rest.sent)
  }

  /** Every event of the run gets its fetch outcomes. */
  predicate NodeAdmissibleRun(n: NodeState, es: seq<NodeEvent>, keys: KeyPair)
    decreases |es|
  {
    es == [] || (NodeAdmissible(n, es[0]) && NodeAdmissibleRun(NodeStep(n, es[0], keys).node, es[1..], keys))
  }

  /** The callback ids of the `validate` requests among the events. */
  function RequestIds(es: seq<NodeEvent>): seq<string> {
    if es == [] then []
    else (if es[0].Received? && es[0].message.Validate? then [es[0].message.request.callbackId] else [])
         + RequestIds(es[1..])
  }

  /** The callback ids of the `validate` replies among the messages sent. */
  function ReplyIds(sent: seq<ToHub>): seq<string> {
    if sent == [] then []
    else (if sent[0].ValidateMsg? then [sent[0].reply.callbackId] else []) + ReplyIds(sent[1..])
  }

  function QueuedIds(queue: seq<ProbeRequest>): seq<string> {
    if queue == [] then [] else [queue[0].callbackId] + QueuedIds(queue[1..])
  }

  /** A node with a validator id has an empty queue. */
  predicate Settled(n: NodeState) {
    Present(n.validatorId) ==> n.pending == []
  }

  /** Every signup answer of the run carries a non-empty validator id. */
  predicate AcksCarryIds(es: seq<NodeEvent>) {
    forall k :: 0 <= k < |es| && es[k].Received? && es[k].message.SignupAck? ==> es[k].message.validatorId != ""
  }

  lemma {:induction false} ReplyIdsSplit(a: seq<ToHub>, b: seq<ToHub>)
    ensures ReplyIds(a + b) == ReplyIds(a) + ReplyIds(b)
  {
    if a != [] {
      assert (a + b)[1..] == a[1..] + b;
      ReplyIdsSplit(a[1..], b);
    } else {
      assert a + b == b;
    }
  }

  lemma {:induction false} QueuedIdsAppend(q: seq<ProbeRequest>, r: ProbeRequest)
    ensures QueuedIds(q + [r]) == QueuedIds(q) + [r.callbackId]
  {
    if q != [] {
      assert (q + [r])[1..] == q[1..] + [r];
      QueuedIdsAppend(q[1..], r);
    } else {
      assert [r][1..] == [];
    }
  }

  lemma {:induction false} DrainedIds(validatorId: Option<string>, queue: seq<ProbeRequest>, outcomes: seq<FetchOutcome>, keys: KeyPair)
    requires |outcomes| == |queue| && Present(validatorId)
    ensures ReplyIds(DrainReplies(validatorId, queue, outcomes, keys)) == QueuedIds(queue)
  {
    if queue != [] {
      var head := Replies(validatorId, queue[0], keys, outcomes[0]);
      var tail := DrainReplies(validatorId, queue[1..], outcomes[1..], keys);
      ReplyIdsSplit(head, tail);
      DrainedIds(validatorId, queue[1..], outcomes[1..], keys);
      assert ReplyIds(head) == [queue[0].callbackId];
    }
  }

  lemma AckAccountsRequests(n: NodeState, validatorId: string, keys: KeyPair, outcomes: seq<FetchOutcome>)
    requires |outcomes| == |n.pending| && validatorId != ""
    ensures var o := OnSignupAck(n, validatorId, keys, outcomes);
            && Settled(o.node)
            && ReplyIds(o.sent) + QueuedIds(o.node.pending) == QueuedIds(n.pending)
  {
    DrainedIds(Some(validatorId), n.pending, outcomes, keys);
  }

  lemma ValidateAccountsRequests(n: NodeState, req: ProbeRequest, keys: KeyPair, outcome: FetchOutcome)
    requires Settled(n)
    ensures var o := OnValidate(n, req, keys, outcome);
            && Settled(o.node)
            && ReplyIds(o.sent) + QueuedIds(o.node.pending) == QueuedIds(n.pending) + [req.callbackId]
  {
    var o := OnValidate(n, req, keys, outcome);
    if !Present(n.validatorId) {
      QueuedIdsAppend(n.pending, req);
    } else {
      assert ReplyIds(o.sent) == [req.callbackId] + ReplyIds([]);
    }
  }

  lemma ConnectAccountsRequests(n: NodeState, keys: KeyPair, callbackId: string)
    requires Settled(n)
    ensures var o := OnConnect(n, keys, callbackId);
            && Settled(o.node)
            && ReplyIds(o.sent) + QueuedIds(o.node.pending) == QueuedIds(n.pending)
  {
    var o := OnConnect(n, keys, callbackId);
    assert ReplyIds(o.sent) == [] + ReplyIds(o.sent[1..]);
  }

  /** One step keeps the request bookkeeping exact. */
  lemma StepAccountsRequests(n: NodeState, e: NodeEvent, keys: KeyPair)
    requires Settled(n) && NodeAdmissible(n, e)
    requires e.Received? && e.message.SignupAck? ==> e.message.validatorId != ""
    ensures var o := NodeStep(n, e, keys);
            && Settled(o.node)
            && ReplyIds(o.sent) + QueuedIds(o.node.pending) == QueuedIds(n.pending) + RequestIds([e])
  {
    assert RequestIds([e]) == (if e.Received? && e.message.Validate? then [e.message.request.callbackId] else []) + RequestIds([]);
    match e
    case Connected(callbackId) => ConnectAccountsRequests(n, keys, callbackId);
    case Dropped =>
    case Received(SignupAck(validatorId, _), outcomes) => AckAccountsRequests(n, validatorId, keys, outcomes);
    case Received(Validate(req), outcomes) => ValidateAccountsRequests(n, req, keys, outcomes[0]);
  }

  /** No request is lost, duplicated or reordered: over any run from a
      settled state in which every signup answer carries a validator id, the
      replies sent followed by what is still queued are exactly the requests
      that were queued or received, in order. */
  lemma {:induction false} NoRequestLost(n: NodeState, es: seq<NodeEvent>, keys: KeyPair)
    requires Settled(n) && NodeAdmissibleRun(n, es, keys) && AcksCarryIds(es)
    ensures var o := NodeRun(n, es, keys);
            ReplyIds(o.sent) + QueuedIds(o.node.pending) == QueuedIds(n.pending) + RequestIds(es)
    decreases |es|
  {
    if es != [] {
      var o1 := NodeStep(n, es[0], keys);
      var rest := NodeRun(o1.node, es[1..], keys);
      var all := NodeRun(n, es, keys);
      assert all == NodeOutcome(rest.node, o1.sent + rest.sent);
      assert ReplyIds(o1.sent) + QueuedIds(o1.node.pending) == QueuedIds(n.pending) + RequestIds([es[0]])
                   && Settled(o1.node) by {
        StepAccountsRequests(n, es[0], keys);
      }
      assert ReplyIds(rest.sent) + QueuedIds(rest.node.pending) == QueuedIds(o1.node.pending) + RequestIds(es[1..]) by {
        assert AcksCarryIds(es[1..]) by {
          forall k | 0 <= k < |es[1..]| ensures es[1..][k] == es[k + 1] { }
        }
        NoRequestLost(o1.node, es[1..], keys);
      }
      assert ReplyIds(all.sent) == ReplyIds(o1.sent) + ReplyIds(rest.sent) by {
        ReplyIdsSplit(o1.sent, rest.sent);
      }
      assert RequestIds(es) == RequestIds([es[0]]) + RequestIds(es[1..]) by {
        assert es == [es[0]] + es[1..];
        RequestIdsSplit([es[0]], es[1..]);
      }
      Regroup(ReplyIds(o1.sent), ReplyIds(rest.sent), QueuedIds(o1.node.pending), QueuedIds(rest.node.pending),
              QueuedIds(n.pending), RequestIds([es[0]]), RequestIds(es[1..]));
    }
  }

  /** Bookkeeping of two consecutive stretches composes into one. */
  lemma Regroup<T>(r1: seq<T>, r2: seq<T>, q1: seq<T>, q2: seq<T>, q0: seq<T>, s1: seq<T>, s2: seq<T>)
    requires r1 + q1 == q0 + s1
    requires r2 + q2 == q1 + s2
    ensures (r1 + r2) + q2 == q0 + (s1 + s2)
  {
    calc {
      (r1 + r2) + q2;
      r1 + (r2 + q2);
      r1 + (q1 + s2);
      (r1 + q1) + s2;
      (q0 + s1) + s2;
    }
  }

  lemma {:induction false} RequestIdsSplit(a: seq<NodeEvent>, b: seq<NodeEvent>)
    ensures RequestIds(a + b) == RequestIds(a) + RequestIds(b)
  {
    if a != [] {
      assert (a + b)[1..] == a[1..] + b;
      RequestIdsSplit(a[1..], b);
    } else {
      assert a + b == b;
    }
  }
}
