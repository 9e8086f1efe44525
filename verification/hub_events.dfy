/** The hub as one event-driven state machine. Each socket event and each run
    of the periodic task is one atomic step. Across any run of steps the
    stores stay consistent (unique validator ids and keys, no dangling
    references), and payouts and ticks move together. */
module HubEvents {
  import opened Wrappers
  import opened Protocol
  import opened HubModel
  import opened HubSignup
  import opened HubRegistry
  import opened HubScheduler
  import opened HubCompletion

  /** The events the hub reacts to. The fresh values the hub would generate
      (the id the store gives a new validator, the callback ids of the
      periodic task) come with the event. */
  datatype Event =
    | SignupReceived(socket: SocketId, request: SignupRequest, freshId: string)
    | ReplyReceived(reply: ValidateReply)
    | Disconnected(socket: SocketId)
    | TimerFired(ids: seq<string>)

  /** The generated values are fresh: a new validator id names no row, and
      the periodic task gets one unused, distinct callback id per send. */
  predicate Admissible(h: HubState, e: Event) {
    match e
    case SignupReceived(_, _, freshId) => !HasValidator(h.validators, freshId)
    case TimerFired(ids) => |ids| == FanOutSize(h) && FreshIds(h.callbacks, ids)
    case _ => true
  }

  /** One step of the hub. */
  function Step(h: HubState, e: Event, scheme: Scheme): (o: Outcome)
    requires Admissible(h, e)
    ensures o.hub.websites == h.websites
  {
    match e
    case SignupReceived(socket, request, freshId) => HandleSignup(h, socket, request, scheme, freshId)
    case ReplyReceived(reply) => Outcome(HandleValidateReply(h, reply, scheme), [])
    case Disconnected(socket) => Outcome(HandleDisconnect(h, socket), [])
    case TimerFired(ids) => SchedulerTick(h, ids)
  }

  /** A registry entry names a stored validator, with that validator's key. */
  predicate Backed(vs: seq<Validator>, c: Connection) {
    exists k :: 0 <= k < |vs| && vs[k].id == c.validatorId && vs[k].publicKey == c.publicKey
  }

  /** Validator ids and public keys are keys of the store; payouts are not negative. */
  predicate ValidStore(vs: seq<Validator>) {
    && UniqueIds(vs)
    && UniqueKeys(vs)
    && (forall k :: 0 <= k < |vs| ==> vs[k].pendingPayouts >= 0)
  }

  /** Every registry entry is backed by a validator row. */
  predicate RegistryBacked(h: HubState) {
    forall k :: 0 <= k < |h.registry| ==> Backed(h.validators, h.registry[k])
  }

  /** Every pending probe sits under its own callback id, is of a stored
      website, and captured the key of a stored validator. */
  predicate ProbesBacked(h: HubState) {
    forall id :: id in h.callbacks ==>
      && h.callbacks[id].callbackId == id
      && HasWebsite(h.websites, h.callbacks[id].websiteId, h.callbacks[id].url)
      && HasPublicKey(h.validators, h.callbacks[id].publicKey)
  }

  /** Every tick references a stored validator and a stored website. */
  predicate TicksBacked(h: HubState) {
    forall k :: 0 <= k < |h.ticks| ==>
      HasValidator(h.validators, h.ticks[k].validatorId) && HasWebsiteId(h.websites, h.ticks[k].websiteId)
  }

  /** The consistency the hub keeps. */
  predicate Valid(h: HubState) {
    ValidStore(h.validators) && RegistryBacked(h) && ProbesBacked(h) && TicksBacked(h)
  }

  /** `after` keeps every row of `before` in place, with its id and key. */
  predicate KeepsRows(before: seq<Validator>, after: seq<Validator>) {
    && |before| <= |after|
    && forall k :: 0 <= k < |before| ==> after[k].id == before[k].id && after[k].publicKey == before[k].publicKey
  }

  lemma KeepsRowsLookups(before: seq<Validator>, after: seq<Validator>)
    requires KeepsRows(before, after)
    ensures forall id :: HasValidator(before, id) ==> HasValidator(after, id)
    ensures forall pk :: HasPublicKey(before, pk) ==> HasPublicKey(after, pk)
    ensures forall c :: Backed(before, c) ==> Backed(after, c)
  {
    forall id | HasValidator(before, id) ensures HasValidator(after, id) {
      var k :| 0 <= k < |before| && before[k].id == id;
      assert after[k].id == id;
    }
    forall pk | HasPublicKey(before, pk) ensures HasPublicKey(after, pk) {
      var k :| 0 <= k < |before| && before[k].publicKey == pk;
      assert after[k].publicKey == pk;
    }
    forall c | Backed(before, c) ensures Backed(after, c) {
      var k :| 0 <= k < |before| && before[k].id == c.validatorId && before[k].publicKey == c.publicKey;
      assert after[k].id == c.validatorId;
    }
  }

  lemma {:induction false} TotalAppend(vs: seq<Validator>, v: Validator)
    ensures TotalPayouts(vs + [v]) == TotalPayouts(vs) + v.pendingPayouts
  {
    if vs != [] {
      assert (vs + [v])[1..] == vs[1..] + [v];
      TotalAppend(vs[1..], v);
    } else {
      assert [v][1..] == [];
    }
  }

  /** What every step keeps: rows stay with their ids and keys, payouts do not
      fall, websites stay, ticks only grow, and the payouts grow by exactly
      the reward for each tick added. */
  predicate Accounted(h: HubState, r: HubState) {
    && KeepsRows(h.validators, r.validators)
    && (forall k :: 0 <= k < |h.validators| ==> r.validators[k].pendingPayouts >= h.validators[k].pendingPayouts)
    && r.websites == h.websites
    && |h.ticks| <= |r.ticks| && r.ticks[..|h.ticks|] == h.ticks
    && TotalPayouts(r.validators) == TotalPayouts(h.validators) + COST_PER_VALIDATION * (|r.ticks| - |h.ticks|)
  }

  /** A step that keeps the rows, websites, probes and ticks keeps their
      references good. */
  lemma FrameBacked(h: HubState, r: HubState)
    requires ProbesBacked(h) && TicksBacked(h) && RegistryBacked(h)
    requires KeepsRows(h.validators, r.validators)
    requires r.websites == h.websites && r.ticks == h.ticks
    requires forall id :: id in r.callbacks ==> id in h.callbacks && r.callbacks[id] == h.callbacks[id]
    requires forall k :: 0 <= k < |r.registry| ==> r.registry[k] in h.registry
    ensures ProbesBacked(r) && TicksBacked(r) && RegistryBacked(r)
  {
    KeepsRowsLookups(h.validators, r.validators);
    forall k | 0 <= k < |r.registry| ensures Backed(r.validators, r.registry[k]) {
      var j :| 0 <= j < |h.registry| && h.registry[j] == r.registry[k];
    }
  }

  /** A row appended with a fresh id and a fresh key keeps the store valid. */
  lemma AppendFreshRow(vs: seq<Validator>, v: Validator)
    requires ValidStore(vs) && !HasValidator(vs, v.id) && !HasPublicKey(vs, v.publicKey) && v.pendingPayouts >= 0
    ensures ValidStore(vs + [v])
  {
    var r := vs + [v];
    forall a, b | 0 <= a < b < |r| ensures r[a].id != r[b].id && r[a].publicKey != r[b].publicKey {
      if b == |vs| {
        assert r[a] == vs[a];
      }
    }
  }

  lemma SignupValid(h: HubState, socket: SocketId, req: SignupRequest, scheme: Scheme, freshId: string)
    requires Valid(h) && !HasValidator(h.validators, freshId)
    ensures Valid(HandleSignup(h, socket, req, scheme, freshId).hub)
  {
    var o := HandleSignup(h, socket, req, scheme, freshId);
    var r := o.hub;
    if SignupVerified(scheme, req) {
      if !HasPublicKey(h.validators, req.publicKey) {
        AppendFreshRow(h.validators, Validator(freshId, req.ip, req.publicKey, UNKNOWN_LOCATION, 0));
      }
      var h' := r.(registry := h.registry);
      FrameBacked(h, h');
      var found := FindByPublicKey(r.validators, req.publicKey);
      assert Backed(r.validators, r.registry[|h.registry|]);
      forall k | 0 <= k < |r.registry| ensures Backed(r.validators, r.registry[k]) {
        if k < |h.registry| {
          assert r.registry[k] == h'.registry[k];
        }
      }
    }
  }

  lemma SignupAccounted(h: HubState, socket: SocketId, req: SignupRequest, scheme: Scheme, freshId: string)
    ensures Accounted(h, HandleSignup(h, socket, req, scheme, freshId).hub)
  {
    var r := HandleSignup(h, socket, req, scheme, freshId).hub;
    assert r.ticks[..|h.ticks|] == h.ticks;
    if SignupVerified(scheme, req) && !HasPublicKey(h.validators, req.publicKey) {
      TotalAppend(h.validators, Validator(freshId, req.ip, req.publicKey, UNKNOWN_LOCATION, 0));
    }
  }

  /** Splicing one entry out of a sequence leaves only entries it had. */
  lemma SpliceMembers(reg: seq<Connection>, i: nat, r: seq<Connection>)
    requires i < |reg| && r == reg[..i] + reg[i + 1..]
    ensures forall k :: 0 <= k < |r| ==> r[k] in reg
  {
    forall k | 0 <= k < |r| ensures r[k] in reg {
      if k < i { assert r[k] == reg[k]; } else { assert r[k] == reg[k + 1]; }
    }
  }

  /** Keeping only entries the registry already had keeps the hub consistent. */
  lemma SubRegistryValid(h: HubState, reg: seq<Connection>)
    requires Valid(h)
    requires forall k :: 0 <= k < |reg| ==> reg[k] in h.registry
    ensures Valid(h.(registry := reg))
  {
    forall k | 0 <= k < |reg| ensures Backed(h.validators, reg[k]) {
      var j :| 0 <= j < |h.registry| && h.registry[j] == reg[k];
    }
  }

  lemma DisconnectValid(h: HubState, socket: SocketId)
    requires Valid(h)
    ensures Valid(HandleDisconnect(h, socket))
  {
    match FindSocket(h.registry, socket)
    case None =>
    case Some(i) =>
      var reg := h.registry[..i] + h.registry[i + 1..];
      SpliceMembers(h.registry, i, reg);
      SubRegistryValid(h, reg);
  }

  lemma DisconnectAccounted(h: HubState, socket: SocketId)
    ensures Accounted(h, HandleDisconnect(h, socket))
  {
    var r := HandleDisconnect(h, socket);
    assert r.ticks[..|h.ticks|] == h.ticks;
  }

  /** The probe of any send of the periodic task is of a stored website and
      captured the key of a stored validator. */
  lemma NewProbeBacked(h: HubState, ids: seq<string>, k: nat)
    requires RegistryBacked(h) && |ids| == FanOutSize(h)
    requires k < |ids|
    ensures var p := FanOut(ActiveWebsites(h.websites), h.registry, ids)[k].probe;
            && HasWebsite(h.websites, p.websiteId, p.url)
            && HasPublicKey(h.validators, p.publicKey)
  {
    var act := ActiveWebsites(h.websites);
    var i, j := FanOutOrigin(act, h.registry, ids, k);
    var w := act[i];
    var c := h.registry[j];
    assert HasWebsite(h.websites, w.id, w.url) by {
      assert w in act;
      var m :| 0 <= m < |h.websites| && h.websites[m] == w;
    }
    assert HasPublicKey(h.validators, c.publicKey) by {
      assert Backed(h.validators, c);
    }
  }

  lemma TickValid(h: HubState, ids: seq<string>)
    requires Valid(h) && |ids| == FanOutSize(h)
    ensures Valid(SchedulerTick(h, ids).hub)
  {
    var r := SchedulerTick(h, ids).hub;
    var ds := FanOut(ActiveWebsites(h.websites), h.registry, ids);
    forall id | id in r.callbacks
      ensures r.callbacks[id].callbackId == id
      ensures HasWebsite(r.websites, r.callbacks[id].websiteId, r.callbacks[id].url)
      ensures HasPublicKey(r.validators, r.callbacks[id].publicKey)
    {
      if id in CallbackIds(ds) {
        var k :| 0 <= k < |ds| && ds[k].probe.callbackId == id;
        var last := LastWithId(ds, k);
        RegisterAllLast(h.callbacks, ds, last);
        NewProbeBacked(h, ids, last);
      } else {
        RegisterAllKeeps(h.callbacks, ds, id);
      }
    }
  }

  lemma TickAccounted(h: HubState, ids: seq<string>)
    requires |ids| == FanOutSize(h)
    ensures Accounted(h, SchedulerTick(h, ids).hub)
  {
    var r := SchedulerTick(h, ids).hub;
    assert r.ticks[..|h.ticks|] == h.ticks;
  }

  lemma ReplyValid(h: HubState, reply: ValidateReply, scheme: Scheme)
    requires Valid(h)
    ensures Valid(HandleValidateReply(h, reply, scheme))
  {
    var r := HandleValidateReply(h, reply, scheme);
    if reply.callbackId in h.callbacks {
      var probe := h.callbacks[reply.callbackId];
      var c := CompleteProbe(h, probe, reply, scheme);
      if Commits(h, scheme, probe, reply) {
        CommitValid(h, probe, reply, scheme);
      }
      DropCallbackValid(c, reply.callbackId);
    }
  }

  /** Removing a pending probe keeps the hub consistent. */
  lemma DropCallbackValid(h: HubState, id: string)
    requires Valid(h)
    ensures Valid(h.(callbacks := h.callbacks - {id}))
  {
  }

  /** Crediting a stored validator keeps the store valid. */
  lemma CreditValidStore(vs: seq<Validator>, id: string, amount: nat)
    requires ValidStore(vs)
    ensures ValidStore(Credit(vs, id, amount))
    ensures KeepsRows(vs, Credit(vs, id, amount))
  {
    var r := Credit(vs, id, amount);
    assert forall k :: 0 <= k < |r| ==>
      r[k].id == vs[k].id && r[k].publicKey == vs[k].publicKey && r[k].pendingPayouts >= vs[k].pendingPayouts;
    assert UniqueIds(r) && UniqueKeys(r);
  }

  /** A committed reply leaves the hub consistent. */
  lemma CommitValid(h: HubState, probe: PendingProbe, reply: ValidateReply, scheme: Scheme)
    requires Valid(h) && Commits(h, scheme, probe, reply)
    requires HasWebsite(h.websites, probe.websiteId, probe.url)
    ensures Valid(CompleteProbe(h, probe, reply, scheme))
  {
    var c := CompleteProbe(h, probe, reply, scheme);
    CreditValidStore(h.validators, reply.validatorId.value, COST_PER_VALIDATION);
    FrameBacked(h, c.(ticks := h.ticks));
    TickAppendedBacked(c, h.ticks, probe, reply);
  }

  lemma TickAppendedBacked(c: HubState, before: seq<WebsiteTick>, probe: PendingProbe, reply: ValidateReply)
    requires reply.validatorId.Some?
    requires c.ticks == before + [TickOf(probe, reply)]
    requires TicksBacked(c.(ticks := before))
    requires HasValidator(c.validators, reply.validatorId.value)
    requires HasWebsite(c.websites, probe.websiteId, probe.url)
    ensures TicksBacked(c)
  {
    var w :| 0 <= w < |c.websites| && c.websites[w].id == probe.websiteId && c.websites[w].url == probe.url;
    assert HasWebsiteId(c.websites, probe.websiteId);
    forall k | 0 <= k < |c.ticks|
      ensures HasValidator(c.validators, c.ticks[k].validatorId) && HasWebsiteId(c.websites, c.ticks[k].websiteId)
    {
      if k < |before| {
        assert c.ticks[k] == before[k];
      }
    }
  }

  lemma ReplyAccounted(h: HubState, reply: ValidateReply, scheme: Scheme)
    requires UniqueIds(h.validators)
    ensures Accounted(h, HandleValidateReply(h, reply, scheme))
  {
    var r := HandleValidateReply(h, reply, scheme);
    if reply.callbackId in h.callbacks {
      var probe := h.callbacks[reply.callbackId];
      if Commits(h, scheme, probe, reply) {
        var id := reply.validatorId.value;
        assert r.ticks == h.ticks + [TickOf(probe, reply)];
        assert r.validators == Credit(h.validators, id, COST_PER_VALIDATION);
        assert r.ticks[..|h.ticks|] == h.ticks;
        CreditTotal(h.validators, id, COST_PER_VALIDATION);
      } else {
        assert r.validators == h.validators && r.ticks == h.ticks;
      }
    }
  }

  /** Every admissible step keeps the hub consistent and its books balanced. */
  lemma StepInvariant(h: HubState, e: Event, scheme: Scheme)
    requires Valid(h) && Admissible(h, e)
    ensures Valid(Step(h, e, scheme).hub) && Accounted(h, Step(h, e, scheme).hub)
  {
    match e
    case SignupReceived(socket, request, freshId) =>
      SignupValid(h, socket, request, scheme, freshId);
      SignupAccounted(h, socket, request, scheme, freshId);
    case ReplyReceived(reply) =>
      ReplyValid(h, reply, scheme);
      ReplyAccounted(h, reply, scheme);
    case Disconnected(socket) =>
      DisconnectValid(h, socket);
      DisconnectAccounted(h, socket);
    case TimerFired(ids) =>
      TickValid(h, ids);
      TickAccounted(h, ids);
  }

  /** Every event of the run is admissible in the state it arrives in. */
  predicate AdmissibleRun(h: HubState, es: seq<Event>, scheme: Scheme)
    decreases |es|
  {
    es == [] || (Admissible(h, es[0]) && AdmissibleRun(Step(h, es[0], scheme).hub, es[1..], scheme))
  }

  /** The hub after a run of events. */
  function Run(h: HubState, es: seq<Event>, scheme: Scheme): (r: HubState)
    requires AdmissibleRun(h, es, scheme)
    ensures es == [] ==> r == h
    ensures r.websites == h.websites
    decreases |es|
  {
    if es == [] then h else Run(Step(h, es[0], scheme).hub, es[1..], scheme)
  }

  /** Two balanced stretches of a run make a balanced whole. */
  lemma AccountedChains(a: HubState, b: HubState, c: HubState)
    requires Accounted(a, b) && Accounted(b, c)
    ensures Accounted(a, c)
  {
    assert c.ticks[..|a.ticks|] == c.ticks[..|b.ticks|][..|a.ticks|];
  }

  /** Over any run: the hub stays consistent, no validator row is lost, no
      payout falls, ticks are only appended, and the total of pending payouts
      grows by exactly the reward per tick recorded. */
  lemma {:induction false} RunInvariant(h: HubState, es: seq<Event>, scheme: Scheme)
    requires Valid(h) && AdmissibleRun(h, es, scheme)
    ensures Valid(Run(h, es, scheme)) && Accounted(h, Run(h, es, scheme))
    decreases |es|
  {
    if es != [] {
      var h1 := Step(h, es[0], scheme).hub;
      StepInvariant(h, es[0], scheme);
      RunInvariant(h1, es[1..], scheme);
      AccountedChains(h, h1, Run(h1, es[1..], scheme));
    }
  }
}
