/** Hub and validator node together: what a node with a genuine key pair
    sends is what the hub accepts, and the canonical round of one signup,
    one periodic tick and one good reply. */
module EndToEnd {
  import opened Wrappers
  import opened Protocol
  import opened HubModel
  import opened HubSignup
  import opened HubScheduler
  import opened HubCompletion
  import opened HubRegistry
  import opened ValidatorNode

  /** The signup a node sends on connecting passes the hub's signature check
      when the node's key pair is genuine. */
  lemma NodeSignupVerifies(scheme: Scheme, keys: KeyPair, n: NodeState, callbackId: string)
    requires Matches(scheme, keys)
    ensures var sent := OnConnect(n, keys, callbackId).sent;
            |sent| == 1 && sent[0].SignupMsg? && SignupVerified(scheme, sent[0].signup)
  {
    SignedMessageVerifies(scheme, keys, SignupText(callbackId, keys.publicKey));
  }

  /** The node answers a probe request with a reply the hub verifies against
      the pending probe registered for it, provided the probe went to this
      node's key and the node holds a validator id. */
  lemma NodeReplyVerifies(scheme: Scheme, keys: KeyPair, validatorId: Option<string>, req: ProbeRequest,
                          outcome: FetchOutcome, probe: PendingProbe)
    requires Matches(scheme, keys)
    requires Present(validatorId)
    requires probe.callbackId == req.callbackId && probe.publicKey == keys.publicKey
    ensures var r := ValidateHandler(validatorId, req, keys, outcome);
            r.Some? && ReplyVerified(scheme, probe, r.value)
  {
    SignedMessageVerifies(scheme, keys, ReplyText(req.callbackId));
  }

  /** A genuine reply to a pending probe, naming a validator id of the store,
      records one tick with the reply's status and latency, credits that
      validator with the cost of one validation, and retires the probe. */
  lemma GenuineReplyCommits(h: HubState, scheme: Scheme, keys: KeyPair, validatorId: string, req: ProbeRequest,
                            outcome: FetchOutcome)
    requires Matches(scheme, keys)
    requires validatorId != "" && HasValidator(h.validators, validatorId)
    requires UniqueIds(h.validators)
    requires req.callbackId in h.callbacks
    requires h.callbacks[req.callbackId].publicKey == keys.publicKey
    requires h.callbacks[req.callbackId].callbackId == req.callbackId
    ensures var reply := ValidateHandler(Some(validatorId), req, keys, outcome).value;
            var r := HandleValidateReply(h, reply, scheme);
            && r.ticks == h.ticks + [WebsiteTick(h.callbacks[req.callbackId].websiteId, validatorId, reply.status, reply.latency)]
            && r.validators == Credit(h.validators, validatorId, COST_PER_VALIDATION)
            && r.callbacks == h.callbacks - {req.callbackId}
            && TotalPayouts(r.validators) == TotalPayouts(h.validators) + COST_PER_VALIDATION
  {
    var probe := h.callbacks[req.callbackId];
    var reply := ValidateHandler(Some(validatorId), req, keys, outcome).value;
    assert Commits(h, scheme, probe, reply) by {
      NodeReplyVerifies(scheme, keys, Some(validatorId), req, outcome, probe);
    }
    assert TickOf(probe, reply) == WebsiteTick(probe.websiteId, validatorId, reply.status, reply.latency);
    CreditTotal(h.validators, validatorId, COST_PER_VALIDATION);
  }

  /** A registry entry that goes away receives no further probes: when the
      only entry on `socket` is removed by its disconnect, the next periodic
      task sends nothing to `socket`. */
  lemma DisconnectStopsProbes(h: HubState, socket: SocketId, ids: seq<string>)
    requires CountSocket(h.registry, socket) <= 1
    ensures var r := HandleDisconnect(h, socket);
            |ids| == FanOutSize(r) ==>
              forall k :: 0 <= k < |SchedulerTick(r, ids).sent| ==> SchedulerTick(r, ids).sent[k].socket != socket
  {
    var r := HandleDisconnect(h, socket);
    DisconnectRemovesOne(h, socket);
    CountSocketZero(r.registry, socket);
    if |ids| == FanOutSize(r) {
      var act := ActiveWebsites(r.websites);
      var o := SchedulerTick(r, ids);
      forall k | 0 <= k < |o.sent|
        ensures o.sent[k].socket != socket
      {
        var i, j := FanOutOrigin(act, r.registry, ids, k);
      }
    }
  }

  // The canonical round, with concrete values.

  const WEBSITE: Website := Website("T1", "https://example.com", false)
  const EMPTY_HUB: HubState := HubState([], map[], [], [WEBSITE], [])
  const NODE_SOCKET: SocketId := "S1"
  const PROBE_REQUEST: ProbeRequest := ProbeRequest("https://example.com", "p1", "T1")

  /** The hub once the node with public key `pk` has signed up as V1. */
  function SignedUpHub(pk: string): HubState {
    HubState([Connection("V1", NODE_SOCKET, pk)], map[], [Validator("V1", NODE_IP, pk, UNKNOWN_LOCATION, 0)], [WEBSITE], [])
  }

  /** The hub once the periodic task has sent its probe to V1. */
  function ProbedHub(pk: string): HubState {
    SignedUpHub(pk).(callbacks := map["p1" := PendingProbe("p1", "T1", "https://example.com", pk)])
  }

  /** The reply V1 sends for a probe answered 200 in 42 ms, with signature `signature`. */
  function GoodReply(signature: string): ValidateReply {
    ValidateReply("p1", Good, 42, "T1", Some("V1"), signature)
  }

  lemma SignupStage(scheme: Scheme, keys: KeyPair)
    requires Matches(scheme, keys)
    ensures var up := OnConnect(Start, keys, "c0");
            HandleSignup(EMPTY_HUB, NODE_SOCKET, up.sent[0].signup, scheme, "V1")
            == Outcome(SignedUpHub(keys.publicKey), [Send(NODE_SOCKET, SignupAck("V1", "c0"))])
  {
    var req := OnConnect(Start, keys, "c0").sent[0].signup;
    assert SignupVerified(scheme, req) && req.publicKey == keys.publicKey && req.callbackId == "c0"
           && req.ip == NODE_IP by {
      NodeSignupVerifies(scheme, keys, Start, "c0");
    }
    var o := HandleSignup(EMPTY_HUB, NODE_SOCKET, req, scheme, "V1");
    var v1 := Validator("V1", NODE_IP, keys.publicKey, UNKNOWN_LOCATION, 0);
    assert o.hub.validators == [v1] by {
      assert !HasPublicKey(EMPTY_HUB.validators, req.publicKey);
    }
    assert FindByPublicKey(o.hub.validators, req.publicKey) == Some(0);
    assert o.sent == [Send(NODE_SOCKET, SignupAck("V1", "c0"))];
    assert o.hub.registry == [Connection("V1", NODE_SOCKET, keys.publicKey)];
  }

  lemma TickStage(pk: string)
    ensures SchedulerTick(SignedUpHub(pk), ["p1"])
            == Outcome(ProbedHub(pk), [Send(NODE_SOCKET, Validate(PROBE_REQUEST))])
  {
    var h := SignedUpHub(pk);
    assert ActiveWebsites(h.websites) == [WEBSITE];
    var ds := FanOut([WEBSITE], h.registry, ["p1"]);
    assert ds == Row(WEBSITE, h.registry, ["p1"]) + FanOut([], h.registry, []);
    assert ds == [ProbeOf(WEBSITE, h.registry[0], "p1")];
    assert RegisterAll(map[], ds) == RegisterAll(map["p1" := ds[0].probe], ds[1..]);
    assert ds[1..] == [];
  }

  lemma NodeStage(keys: KeyPair)
    ensures var node := OnSignupAck(OnConnect(Start, keys, "c0").node, "V1", keys, []).node;
            && node.validatorId == Some("V1")
            && OnValidate(node, PROBE_REQUEST, keys, Responded(200, 42)).sent == [ValidateMsg(GoodReply(SignMessage(keys, ReplyText("p1"))))]
  {
  }

  lemma ReplyStage(scheme: Scheme, keys: KeyPair, signature: string)
    requires VerifyMessage(scheme, ReplyText("p1"), keys.publicKey, signature)
    ensures HandleValidateReply(ProbedHub(keys.publicKey), GoodReply(signature), scheme)
            == SignedUpHub(keys.publicKey).(
                 validators := [Validator("V1", NODE_IP, keys.publicKey, UNKNOWN_LOCATION, COST_PER_VALIDATION)],
                 ticks := [WebsiteTick("T1", "V1", Good, 42)])
  {
    var h := ProbedHub(keys.publicKey);
    var reply := GoodReply(signature);
    var probe := h.callbacks["p1"];
    assert Commits(h, scheme, probe, reply) by {
      assert h.validators[0].id == "V1";
    }
    var done := CompleteProbe(h, probe, reply, scheme);
    assert done.ticks == [WebsiteTick("T1", "V1", Good, 42)];
    assert done.validators == [Validator("V1", NODE_IP, keys.publicKey, UNKNOWN_LOCATION, COST_PER_VALIDATION)] by {
      assert Credit(h.validators, "V1", COST_PER_VALIDATION)[0].pendingPayouts == COST_PER_VALIDATION;
    }
    assert done.registry == h.registry && done.websites == h.websites;
    var r := HandleValidateReply(h, reply, scheme);
    assert r == done.(callbacks := h.callbacks - {"p1"});
    assert h.callbacks - {"p1"} == map[];
  }

  /** A validator with public key PK1 signs up and gets id V1; the periodic
      task sends one probe for website T1 to it; the node answers `Good` with
      latency 42; the hub then holds one tick (T1, V1, Good, 42), V1 is owed
      100, and no probe is pending. */
  lemma CanonicalRound(scheme: Scheme, keys: KeyPair)
    requires Matches(scheme, keys)
    ensures var pk := keys.publicKey;
            var up := OnConnect(Start, keys, "c0");
            var node := OnSignupAck(up.node, "V1", keys, []).node;
            var answer := OnValidate(node, PROBE_REQUEST, keys, Responded(200, 42));
            && HandleSignup(EMPTY_HUB, NODE_SOCKET, up.sent[0].signup, scheme, "V1")
               == Outcome(SignedUpHub(pk), [Send(NODE_SOCKET, SignupAck("V1", "c0"))])
            && SchedulerTick(SignedUpHub(pk), ["p1"])
               == Outcome(ProbedHub(pk), [Send(NODE_SOCKET, Validate(PROBE_REQUEST))])
            && node.validatorId == Some("V1")
            && |answer.sent| == 1 && answer.sent[0].ValidateMsg?
            && var done := HandleValidateReply(ProbedHub(pk), answer.sent[0].reply, scheme);
               && done.ticks == [WebsiteTick("T1", "V1", Good, 42)]
               && done.validators == [Validator("V1", NODE_IP, pk, UNKNOWN_LOCATION, COST_PER_VALIDATION)]
               && done.callbacks == map[]
  {
    SignupStage(scheme, keys);
    TickStage(keys.publicKey);
    var signature := SignMessage(keys, ReplyText("p1"));
    var node := OnSignupAck(OnConnect(Start, keys, "c0").node, "V1", keys, []).node;
    var answer := OnValidate(node, PROBE_REQUEST, keys, Responded(200, 42));
    assert answer.sent[0].reply == GoodReply(signature) by {
      NodeStage(keys);
    }
    assert VerifyMessage(scheme, ReplyText("p1"), keys.publicKey, signature) by {
      SignedMessageVerifies(scheme, keys, ReplyText("p1"));
    }
    ReplyStage(scheme, keys, signature);
  }
}
