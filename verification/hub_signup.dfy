/** The hub's handling of a `signup` message: the signature check on the
    signup text, then find-or-create of the validator row by public key, the
    reply, and the registry entry. */
module HubSignup {
  import opened Wrappers
  import opened SignatureWire
  import opened Protocol
  import opened HubModel

  /** The first row of the store with this public key, by position. */
  function FindByPublicKey(vs: seq<Validator>, publicKey: string): (r: Option<nat>)
    ensures r.Some? ==> r.value < |vs| && vs[r.value].publicKey == publicKey
    ensures r.Some? ==> forall k :: 0 <= k < r.value ==> vs[k].publicKey != publicKey
    ensures r.None? <==> !HasPublicKey(vs, publicKey)
  {
    if vs == [] then None
    else if vs[0].publicKey == publicKey then Some(0)
    else
      match FindByPublicKey(vs[1..], publicKey)
      case None => None
      case Some(i) => Some(i + 1)
  }

  /** The signature on a signup must be over the signup text for the claimed
      callback id and public key, under that same public key. */
  predicate SignupVerified(scheme: Scheme, req: SignupRequest): (ok: bool)
    ensures ok ==> DecodeSignature(req.signedMessage).Some? && scheme.decodeKey(req.publicKey).Some?
  {
    VerifyMessage(scheme, SignupText(req.callbackId, req.publicKey), req.publicKey, req.signedMessage)
  }

  /** A verified signup on `socket`. `freshId` is the id the store assigns if
      it has to create the row. */
  function HandleSignup(h: HubState, socket: SocketId, req: SignupRequest, scheme: Scheme, freshId: string): (o: Outcome)
    ensures !SignupVerified(scheme, req) ==> o == Outcome(h, [])
    ensures SignupVerified(scheme, req) ==>
      var found := FindByPublicKey(o.hub.validators, req.publicKey);
      && found.Some?
      && o.sent == [Send(socket, SignupAck(o.hub.validators[found.value].id, req.callbackId))]
      && o.hub.registry == h.registry + [Connection(o.hub.validators[found.value].id, socket, req.publicKey)]
    ensures SignupVerified(scheme, req) && HasPublicKey(h.validators, req.publicKey) ==>
      o.hub.validators == h.validators
    ensures SignupVerified(scheme, req) && !HasPublicKey(h.validators, req.publicKey) ==>
      o.hub.validators == h.validators + [Validator(freshId, req.ip, req.publicKey, UNKNOWN_LOCATION, 0)]
    ensures o.hub.callbacks == h.callbacks && o.hub.websites == h.websites && o.hub.ticks == h.ticks
  {
    if !SignupVerified(scheme, req) then Outcome(h, [])
    else
      var found := FindByPublicKey(h.validators, req.publicKey);
      if found.Some? then
        var v := h.validators[found.value];
        Outcome(
          h.(registry := h.registry + [Connection(v.id, socket, v.publicKey)]),
          [Send(socket, SignupAck(v.id, req.callbackId))])
      else
        var v := Validator(freshId, req.ip, req.publicKey, UNKNOWN_LOCATION, 0);
        FindAppended(h.validators, v);
        Outcome(
          h.(validators := h.validators + [v], registry := h.registry + [Connection(v.id, socket, v.publicKey)]),
          [Send(socket, SignupAck(v.id, req.callbackId))])
  }

  /** A row appended for a public key the store lacked is the one found for it. */
  lemma FindAppended(vs: seq<Validator>, v: Validator)
    requires !HasPublicKey(vs, v.publicKey)
    ensures FindByPublicKey(vs + [v], v.publicKey) == Some(|vs|)
  {
    assert (vs + [v])[|vs|].publicKey == v.publicKey;
  }

  /** Find-or-create: whatever happened before, after a verified signup the
      store has exactly one row for the public key, provided it had at most
      one. */
  lemma SignupKeepsOneRow(h: HubState, socket: SocketId, req: SignupRequest, scheme: Scheme, freshId: string)
    requires SignupVerified(scheme, req)
    requires CountPublicKey(h.validators, req.publicKey) <= 1
    ensures CountPublicKey(HandleSignup(h, socket, req, scheme, freshId).hub.validators, req.publicKey) == 1
  {
    var vs := h.validators;
    if !HasPublicKey(vs, req.publicKey) {
      CountAppend(vs, Validator(freshId, req.ip, req.publicKey, UNKNOWN_LOCATION, 0), req.publicKey);
    }
  }

  lemma {:induction false} CountAppend(vs: seq<Validator>, v: Validator, publicKey: string)
    ensures CountPublicKey(vs + [v], publicKey) ==
            CountPublicKey(vs, publicKey) + (if v.publicKey == publicKey then 1 else 0)
  {
    if vs != [] {
      assert (vs + [v])[1..] == vs[1..] + [v];
      CountAppend(vs[1..], v, publicKey);
    } else {
      assert [v][1..] == [];
    }
  }

  /** A repeated signup with the same public key gets the same validator id,
      and leaves the store as it was. */
  lemma RepeatedSignupSameId(h: HubState, s1: SocketId, s2: SocketId, r1: SignupRequest, r2: SignupRequest,
                             scheme: Scheme, id1: string, id2: string)
    requires SignupVerified(scheme, r1) && SignupVerified(scheme, r2)
    requires r1.publicKey == r2.publicKey
    ensures var o1 := HandleSignup(h, s1, r1, scheme, id1);
            var o2 := HandleSignup(o1.hub, s2, r2, scheme, id2);
            && o2.hub.validators == o1.hub.validators
            && o1.sent[0].message.validatorId == o2.sent[0].message.validatorId
  {
  }
}
