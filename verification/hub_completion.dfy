/** The hub's handling of a `validate` reply: the correlation table is looked
    up by the reply's callback id; a pending probe found there is completed
    once and removed. Completion checks the reply's signature against the
    public key of the registry entry the probe went to, then records a tick
    and credits the validator id named in the reply, both in one
    transaction. */
module HubCompletion {
  import opened Wrappers
  import opened SignatureWire
  import opened Protocol
  import opened HubModel

  /** The store after `pendingPayouts` of the row with id `id` grows by
      `amount`. */
  function Credit(vs: seq<Validator>, id: string, amount: int): (r: seq<Validator>)
    ensures |r| == |vs|
    ensures forall k :: 0 <= k < |vs| ==>
              r[k] == if vs[k].id == id then vs[k].(pendingPayouts := vs[k].pendingPayouts + amount) else vs[k]
  {
    if vs == [] then []
    else
      var head := if vs[0].id == id then vs[0].(pendingPayouts := vs[0].pendingPayouts + amount) else vs[0];
      var tail := Credit(vs[1..], id, amount);
      assert forall k :: 1 <= k < |vs| ==> ([head] + tail)[k] == tail[k - 1] && vs[1..][k - 1] == vs[k];
      [head] + tail
  }

  /** The reply is signed over the reply text for the probe's callback id,
      under the public key of the connection the probe was sent to. The
      validator id the reply names plays no part. */
  predicate ReplyVerified(scheme: Scheme, probe: PendingProbe, reply: ValidateReply): (ok: bool)
    ensures ok ==> DecodeSignature(reply.signedMessage).Some? && scheme.decodeKey(probe.publicKey).Some?
  {
    VerifyMessage(scheme, ReplyText(probe.callbackId), probe.publicKey, reply.signedMessage)
  }

  /** The tick a verified reply records: the website is the one the probe
      was sent for, whatever website id the reply carries. */
  function TickOf(probe: PendingProbe, reply: ValidateReply): WebsiteTick
    requires reply.validatorId.Some?
  {
    WebsiteTick(probe.websiteId, reply.validatorId.value, reply.status, reply.latency)
  }

  /** A reply is committed when its signature verifies, it names a validator
      id, and that id is a row of the store (otherwise the payout update
      fails and the transaction commits nothing). */
  predicate Commits(h: HubState, scheme: Scheme, probe: PendingProbe, reply: ValidateReply): (ok: bool)
    ensures ok ==> DecodeSignature(reply.signedMessage).Some? && scheme.decodeKey(probe.publicKey).Some?
    ensures ok ==> reply.validatorId.Some? && reply.validatorId.value != "" && |h.validators| > 0
  {
    && ReplyVerified(scheme, probe, reply)
    && Present(reply.validatorId)
    && HasValidator(h.validators, reply.validatorId.value)
  }

  /** The completion handler of one pending probe. */
  function CompleteProbe(h: HubState, probe: PendingProbe, reply: ValidateReply, scheme: Scheme): (r: HubState)
    ensures !ReplyVerified(scheme, probe, reply) ==> r == h
    ensures !Present(reply.validatorId) ==> r == h
    ensures !Commits(h, scheme, probe, reply) ==> r == h
    ensures Commits(h, scheme, probe, reply) ==>
              && r.ticks == h.ticks + [TickOf(probe, reply)]
              && r.validators == Credit(h.validators, reply.validatorId.value, COST_PER_VALIDATION)
              && r.registry == h.registry && r.callbacks == h.callbacks && r.websites == h.websites
    ensures (r.ticks == h.ticks) <==> (r.validators == h.validators)
  {
    if !ReplyVerified(scheme, probe, reply) then h
    else if !Present(reply.validatorId) then h
    else
      var id := reply.validatorId.value;
      if !HasValidator(h.validators, id) then h
      else
        var k :| 0 <= k < |h.validators| && h.validators[k].id == id;
        var credited := Credit(h.validators, id, COST_PER_VALIDATION);
        assert credited[k] != h.validators[k];
        h.(ticks := h.ticks + [TickOf(probe, reply)], validators := credited)
  }

  /** The `validate` branch of the hub's message handler. */
  function HandleValidateReply(h: HubState, reply: ValidateReply, scheme: Scheme): (r: HubState)
    ensures reply.callbackId !in r.callbacks
    ensures r.callbacks == h.callbacks - {reply.callbackId}
    ensures reply.callbackId !in h.callbacks ==> r == h
    ensures reply.callbackId in h.callbacks ==>
              r == CompleteProbe(h, h.callbacks[reply.callbackId], reply, scheme).(callbacks := r.callbacks)
  {
    if reply.callbackId in h.callbacks then
      var done := CompleteProbe(h, h.callbacks[reply.callbackId], reply, scheme);
      done.(callbacks := done.callbacks - {reply.callbackId})
    else h
  }

  /** A replayed reply is inert: the second delivery of the same callback id
      changes nothing. */
  lemma ReplayIsNoOp(h: HubState, first: ValidateReply, again: ValidateReply, scheme: Scheme)
    requires again.callbackId == first.callbackId
    ensures HandleValidateReply(HandleValidateReply(h, first, scheme), again, scheme)
            == HandleValidateReply(h, first, scheme)
  {
  }

  /** The hub state after a sequence of replies, handled in order. */
  function HandleReplies(h: HubState, replies: seq<ValidateReply>, scheme: Scheme): HubState
    decreases |replies|
  {
    if replies == [] then h else HandleReplies(HandleValidateReply(h, replies[0], scheme), replies[1..], scheme)
  }

  /** At most once: however many replies arrive for one callback id, at most
      one tick is recorded and at most one payout credited for it. */
  lemma {:induction false} RepliesForOneIdCommitOnce(h: HubState, replies: seq<ValidateReply>, id: string, scheme: Scheme)
    requires forall k :: 0 <= k < |replies| ==> replies[k].callbackId == id
    ensures var r := HandleReplies(h, replies, scheme);
            && |h.ticks| <= |r.ticks| <= |h.ticks| + 1
            && (id !in h.callbacks ==> r == h)
            && (UniqueIds(h.validators) ==>
                  TotalPayouts(r.validators) == TotalPayouts(h.validators) + COST_PER_VALIDATION * (|r.ticks| - |h.ticks|))
    decreases |replies|
  {
    if replies != [] {
      var reply := replies[0];
      var h1 := HandleValidateReply(h, reply, scheme);
      NoPendingNoChange(h1, replies[1..], id, scheme);
      if UniqueIds(h.validators) && id in h.callbacks && Commits(h, scheme, h.callbacks[id], reply) {
        CreditTotal(h.validators, reply.validatorId.value, COST_PER_VALIDATION);
      }
    }
  }

  lemma {:induction false} NoPendingNoChange(h: HubState, replies: seq<ValidateReply>, id: string, scheme: Scheme)
    requires forall k :: 0 <= k < |replies| ==> replies[k].callbackId == id
    requires id !in h.callbacks
    ensures HandleReplies(h, replies, scheme) == h
    decreases |replies|
  {
    if replies != [] {
      NoPendingNoChange(h, replies[1..], id, scheme);
    }
  }

  /** Atomicity of the transaction, counted in money: the payouts in the
      store grow by exactly the reward times the number of ticks recorded,
      provided validator ids are unique. */
  lemma {:induction false} CreditTotal(vs: seq<Validator>, id: string, amount: int)
    requires UniqueIds(vs)
    ensures TotalPayouts(Credit(vs, id, amount)) == TotalPayouts(vs) + (if HasValidator(vs, id) then amount else 0)
  {
    if vs != [] {
      var tail := vs[1..];
      assert forall a :: 0 <= a < |tail| ==> tail[a] == vs[a + 1];
      CreditTotal(tail, id, amount);
      assert Credit(vs, id, amount)[1..] == Credit(tail, id, amount);
      if vs[0].id == id {
        assert !HasValidator(tail, id);
      } else {
        assert HasValidator(vs, id) == HasValidator(tail, id);
      }
    }
  }

  /** What the reply claims decides who is paid: the completion credits the
      validator id named in the reply, even when the public key the reply was
      verified against belongs to a different row. */
  lemma CreditFollowsClaim(h: HubState, probe: PendingProbe, reply: ValidateReply, scheme: Scheme, k: nat)
    requires Commits(h, scheme, probe, reply)
    requires k < |h.validators| && h.validators[k].id == reply.validatorId.value
    requires h.validators[k].publicKey != probe.publicKey
    ensures CompleteProbe(h, probe, reply, scheme).validators[k].pendingPayouts
            == h.validators[k].pendingPayouts + COST_PER_VALIDATION
  {
  }
}
