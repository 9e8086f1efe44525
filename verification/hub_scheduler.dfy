/** One run of the hub's periodic task: every website that is not disabled is
    probed by every registry entry. Each (website, entry) pair gets its own
    fresh callback id, one `validate` message on the entry's socket, and one
    pending probe in the correlation table. */
module HubScheduler {
  import opened Wrappers
  import opened Protocol
  import opened HubModel

  /** The websites the periodic task loads: those not disabled, in store order. */
  function ActiveWebsites(ws: seq<Website>): (r: seq<Website>)
    ensures |r| <= |ws|
    ensures forall w :: w in r <==> w in ws && !w.disabled
    ensures forall w :: multiset(r)[w] == if w.disabled then 0 else multiset(ws)[w]
  {
    if ws == [] then []
    else
      var head := if ws[0].disabled then [] else [ws[0]];
      assert ws == [ws[0]] + ws[1..];
      head + ActiveWebsites(ws[1..])
  }

  /** One send of the fan-out: the socket written to, and the pending probe
      registered under the callback id of that send. */
  datatype Dispatch = Dispatch(socket: SocketId, probe: PendingProbe)

  /** The probe of website `w` by registry entry `c` under `callbackId`: what
      the completion handler for it captures. */
  function ProbeOf(w: Website, c: Connection, callbackId: string): Dispatch {
    Dispatch(c.socket, PendingProbe(callbackId, w.id, w.url, c.publicKey))
  }

  /** The `validate` message written for a dispatch. */
  function RequestOf(d: Dispatch): Send {
    Send(d.socket, Validate(ProbeRequest(d.probe.url, d.probe.callbackId, d.probe.websiteId)))
  }

  /** m rows of n sends each, counted row by row. */
  function Times(m: nat, n: nat): nat {
    if m == 0 then 0 else Times(m - 1, n) + n
  }

  /** Counting row by row gives the product. */
  lemma {:induction false} TimesIsProduct(m: nat, n: nat)
    ensures Times(m, n) == m * n
  {
    if m > 0 {
      TimesIsProduct(m - 1, n);
    }
  }

  lemma {:induction false} TimesMonotone(a: nat, b: nat, n: nat)
    requires a <= b
    ensures Times(a, n) <= Times(b, n)
    decreases b
  {
    if a < b {
      TimesMonotone(a, b - 1, n);
    }
  }

  /** The position of the pair (website i, entry j) in the fan-out order:
      websites in the outer loop, registry entries in the inner one. */
  function Slot(i: nat, j: nat, n: nat): nat {
    Times(i, n) + j
  }

  /** The inner loop: website `w` is sent to every registry entry in order. */
  function Row(w: Website, reg: seq<Connection>, ids: seq<string>): (r: seq<Dispatch>)
    requires |ids| == |reg|
    ensures |r| == |reg|
    ensures forall j :: 0 <= j < |r| ==> r[j] == ProbeOf(w, reg[j], ids[j])
  {
    if reg == [] then [] else [ProbeOf(w, reg[0], ids[0])] + Row(w, reg[1..], ids[1..])
  }

  /** Both loops: `ids` holds one fresh callback id per send, in send order. */
  function FanOut(ws: seq<Website>, reg: seq<Connection>, ids: seq<string>): (r: seq<Dispatch>)
    requires |ids| == Times(|ws|, |reg|)
    ensures |r| == |ids|
    decreases |ws|
  {
    if ws == [] then []
    else
      PeelRow(|ws|, |reg|);
      Row(ws[0], reg, ids[..|reg|]) + FanOut(ws[1..], reg, ids[|reg|..])
  }

  /** Taking the first of m rows of n leaves m - 1 rows of n. */
  lemma PeelRow(m: nat, n: nat)
    requires m > 0
    ensures n <= Times(m, n) && Times(m - 1, n) == Times(m, n) - n
  {
  }

  /** The slot of pair (i, j) lies inside the m rows of n sends, one row
      after the slot of (i - 1, j). */
  lemma SlotBounds(i: nat, j: nat, n: nat, m: nat)
    requires i < m && j < n
    ensures Slot(i, j, n) < Times(m, n)
    ensures 0 < i ==> Slot(i, j, n) == n + Slot(i - 1, j, n)
  {
    TimesMonotone(i + 1, m, n);
  }

  /** The set of callback ids of a sequence of dispatches. */
  function CallbackIds(ds: seq<Dispatch>): (r: set<string>)
    ensures forall k :: 0 <= k < |ds| ==> ds[k].probe.callbackId in r
    ensures forall id :: id in r ==> exists k :: 0 <= k < |ds| && ds[k].probe.callbackId == id
  {
    if ds == [] then {} else {ds[0].probe.callbackId} + CallbackIds(ds[1..])
  }

  /** Every send's probe is registered under its callback id, in send order. */
  function RegisterAll(table: map<string, PendingProbe>, ds: seq<Dispatch>): (r: map<string, PendingProbe>)
    ensures r.Keys == table.Keys + CallbackIds(ds)
    decreases |ds|
  {
    if ds == [] then table else RegisterAll(table[ds[0].probe.callbackId := ds[0].probe], ds[1..])
  }

  /** Entries whose ids the sends do not use stay as they were. */
  lemma {:induction false} RegisterAllKeeps(table: map<string, PendingProbe>, ds: seq<Dispatch>, id: string)
    requires id in table && id !in CallbackIds(ds)
    ensures RegisterAll(table, ds)[id] == table[id]
    decreases |ds|
  {
    if ds != [] {
      RegisterAllKeeps(table[ds[0].probe.callbackId := ds[0].probe], ds[1..], id);
    }
  }

  /** A send's probe is what its callback id maps to, unless a later send
      reuses the id. */
  lemma {:induction false} RegisterAllLast(table: map<string, PendingProbe>, ds: seq<Dispatch>, k: nat)
    requires k < |ds|
    requires forall m :: k < m < |ds| ==> ds[m].probe.callbackId != ds[k].probe.callbackId
    ensures RegisterAll(table, ds)[ds[k].probe.callbackId] == ds[k].probe
    decreases |ds|
  {
    var t := table[ds[0].probe.callbackId := ds[0].probe];
    if k == 0 {
      RegisterAllKeeps(t, ds[1..], ds[0].probe.callbackId);
    } else {
      assert ds[k] == ds[1..][k - 1];
      forall m | k - 1 < m < |ds[1..]|
        ensures ds[1..][m].probe.callbackId != ds[1..][k - 1].probe.callbackId
      {
        assert ds[1..][m] == ds[m + 1];
      }
      RegisterAllLast(t, ds[1..], k - 1);
    }
  }

  /** Callback ids from the generator are pairwise distinct and not in the
      correlation table already. */
  predicate FreshIds(table: map<string, PendingProbe>, ids: seq<string>) {
    && (forall a, b :: 0 <= a < b < |ids| ==> ids[a] != ids[b])
    && (forall k :: 0 <= k < |ids| ==> ids[k] !in table)
  }

  /** The number of sends one run of the periodic task makes. */
  function FanOutSize(h: HubState): nat {
    Times(|ActiveWebsites(h.websites)|, |h.registry|)
  }

  /** One run of the periodic task; `ids` are the callback ids it generates,
      in send order. */
  function SchedulerTick(h: HubState, ids: seq<string>): (o: Outcome)
    requires |ids| == FanOutSize(h)
    ensures o.hub.registry == h.registry && o.hub.validators == h.validators
    ensures o.hub.websites == h.websites && o.hub.ticks == h.ticks
    ensures |o.sent| == FanOutSize(h)
  {
    var ds := FanOut(ActiveWebsites(h.websites), h.registry, ids);
    Outcome(
      h.(callbacks := RegisterAll(h.callbacks, ds)),
      seq(|ds|, k requires 0 <= k < |ds| => RequestOf(ds[k])))
  }

  /** The send for website i and registry entry j sits at slot (i, j). */
  lemma {:induction false} FanOutAt(ws: seq<Website>, reg: seq<Connection>, ids: seq<string>, i: nat, j: nat)
    requires |ids| == Times(|ws|, |reg|) && i < |ws| && j < |reg|
    ensures Slot(i, j, |reg|) < |ids|
    ensures FanOut(ws, reg, ids)[Slot(i, j, |reg|)] == ProbeOf(ws[i], reg[j], ids[Slot(i, j, |reg|)])
    decreases i
  {
    var n := |reg|;
    SlotBounds(i, j, n, |ws|);
    PeelRow(|ws|, n);
    var row := Row(ws[0], reg, ids[..n]);
    var rest := FanOut(ws[1..], reg, ids[n..]);
    assert FanOut(ws, reg, ids) == row + rest;
    var k := Slot(i, j, n);
    if i == 0 {
      assert k == j;
      assert row[j] == ProbeOf(ws[0], reg[j], ids[..n][j]);
      assert ids[..n][j] == ids[j];
      assert (row + rest)[k] == row[k];
    } else {
      var k' := Slot(i - 1, j, n);
      assert k == n + k';
      assert rest[k'] == ProbeOf(ws[1..][i - 1], reg[j], ids[n..][k']) by {
        FanOutAt(ws[1..], reg, ids[n..], i - 1, j);
      }
      assert ws[1..][i - 1] == ws[i];
      assert ids[n..][k'] == ids[k];
      assert (row + rest)[k] == rest[k'];
    }
  }

  /** The website and registry entry behind the k-th send of the fan-out. */
  lemma {:induction false} FanOutOrigin(ws: seq<Website>, reg: seq<Connection>, ids: seq<string>, k: nat)
    returns (i: nat, j: nat)
    requires |ids| == Times(|ws|, |reg|) && k < |ids|
    ensures i < |ws| && j < |reg|
    ensures FanOut(ws, reg, ids)[k] == ProbeOf(ws[i], reg[j], ids[k])
    decreases |ws|
  {
    var n := |reg|;
    PeelRow(|ws|, n);
    var row := Row(ws[0], reg, ids[..n]);
    assert FanOut(ws, reg, ids) == row + FanOut(ws[1..], reg, ids[n..]);
    if k < n {
      i, j := 0, k;
    } else {
      var i', j' := FanOutOrigin(ws[1..], reg, ids[n..], k - n);
      i, j := i' + 1, j';
      assert ws[1..][i'] == ws[i];
    }
  }

  /** The k-th send of the fan-out carries the k-th generated callback id. */
  lemma FanOutIds(ws: seq<Website>, reg: seq<Connection>, ids: seq<string>)
    requires |ids| == Times(|ws|, |reg|)
    ensures forall k :: 0 <= k < |ids| ==> FanOut(ws, reg, ids)[k].probe.callbackId == ids[k]
  {
    forall k | 0 <= k < |ids| ensures FanOut(ws, reg, ids)[k].probe.callbackId == ids[k] {
      var i, j := FanOutOrigin(ws, reg, ids, k);
    }
  }

  /** Every send of the fan-out goes to a registry entry's socket, for a
      website of the list, with that entry's public key captured. */
  lemma {:induction false} FanOutSources(ws: seq<Website>, reg: seq<Connection>, ids: seq<string>)
    requires |ids| == Times(|ws|, |reg|)
    ensures forall d :: d in FanOut(ws, reg, ids) ==>
              && (exists i :: 0 <= i < |ws| && d.probe.websiteId == ws[i].id && d.probe.url == ws[i].url)
              && (exists j :: 0 <= j < |reg| && d.socket == reg[j].socket && d.probe.publicKey == reg[j].publicKey)
    decreases |ws|
  {
    if ws != [] {
      var n := |reg|;
      PeelRow(|ws|, n);
      FanOutSources(ws[1..], reg, ids[n..]);
      var row := Row(ws[0], reg, ids[..n]);
      assert FanOut(ws, reg, ids) == row + FanOut(ws[1..], reg, ids[n..]);
      forall d | d in FanOut(ws[1..], reg, ids[n..])
        ensures exists i :: 0 <= i < |ws| && d.probe.websiteId == ws[i].id && d.probe.url == ws[i].url
      {
        var i :| 0 <= i < |ws[1..]| && d.probe.websiteId == ws[1..][i].id && d.probe.url == ws[1..][i].url;
        assert ws[1..][i] == ws[i + 1];
      }
    }
  }

  lemma {:induction false} DistinctCallbackIdsSize(ds: seq<Dispatch>)
    requires forall a, b :: 0 <= a < b < |ds| ==> ds[a].probe.callbackId != ds[b].probe.callbackId
    ensures |CallbackIds(ds)| == |ds|
  {
    if ds != [] {
      var tail := ds[1..];
      assert forall a :: 0 <= a < |tail| ==> tail[a] == ds[a + 1];
      DistinctCallbackIdsSize(tail);
    }
  }

  /** One run of the periodic task with M websites not disabled and N
      registry entries sends exactly M*N `validate` messages and registers
      exactly M*N new pending probes: the one for website i and entry j goes
      to entry j's socket, under the callback id generated for that pair, and
      captures the website's id and url and the entry's public key. Pending
      probes registered earlier stay as they were. */
  lemma TickFanOut(h: HubState, ids: seq<string>)
    requires |ids| == FanOutSize(h)
    requires FreshIds(h.callbacks, ids)
    ensures var o := SchedulerTick(h, ids);
            var act := ActiveWebsites(h.websites);
            var n := |h.registry|;
            && |o.sent| == |act| * n
            && |o.hub.callbacks| == |h.callbacks| + |act| * n
            && (forall id :: id in h.callbacks ==> id in o.hub.callbacks && o.hub.callbacks[id] == h.callbacks[id])
            && (forall i, j :: 0 <= i < |act| && 0 <= j < n ==>
                  && Slot(i, j, n) < |ids|
                  && o.sent[Slot(i, j, n)]
                     == Send(h.registry[j].socket, Validate(ProbeRequest(act[i].url, ids[Slot(i, j, n)], act[i].id)))
                  && ids[Slot(i, j, n)] in o.hub.callbacks
                  && o.hub.callbacks[ids[Slot(i, j, n)]]
                     == PendingProbe(ids[Slot(i, j, n)], act[i].id, act[i].url, h.registry[j].publicKey))
  {
    var act := ActiveWebsites(h.websites);
    var n := |h.registry|;
    TimesIsProduct(|act|, n);
    TickTable(h, ids);
    forall i, j | 0 <= i < |act| && 0 <= j < n
      ensures Slot(i, j, n) < |ids|
      ensures SchedulerTick(h, ids).sent[Slot(i, j, n)]
              == Send(h.registry[j].socket, Validate(ProbeRequest(act[i].url, ids[Slot(i, j, n)], act[i].id)))
      ensures ids[Slot(i, j, n)] in SchedulerTick(h, ids).hub.callbacks
      ensures SchedulerTick(h, ids).hub.callbacks[ids[Slot(i, j, n)]]
              == PendingProbe(ids[Slot(i, j, n)], act[i].id, act[i].url, h.registry[j].publicKey)
    {
      TickSlot(h, ids, i, j);
    }
  }

  /** The dispatches of one run carry pairwise distinct callback ids. */
  lemma FanOutDistinct(h: HubState, ids: seq<string>)
    requires |ids| == FanOutSize(h) && FreshIds(h.callbacks, ids)
    ensures var ds := FanOut(ActiveWebsites(h.websites), h.registry, ids);
            forall a, b :: 0 <= a < b < |ds| ==> ds[a].probe.callbackId != ds[b].probe.callbackId
  {
    FanOutIds(ActiveWebsites(h.websites), h.registry, ids);
  }

  /** The correlation table after one run: the old entries stay, and one new
      entry is added per send. */
  lemma TickTable(h: HubState, ids: seq<string>)
    requires |ids| == FanOutSize(h) && FreshIds(h.callbacks, ids)
    ensures var t := SchedulerTick(h, ids).hub.callbacks;
            && |t| == |h.callbacks| + |ids|
            && forall id :: id in h.callbacks ==> id in t && t[id] == h.callbacks[id]
  {
    var t := SchedulerTick(h, ids).hub.callbacks;
    var ds := FanOut(ActiveWebsites(h.websites), h.registry, ids);
    assert t == RegisterAll(h.callbacks, ds);
    FanOutDistinct(h, ids);
    FanOutIds(ActiveWebsites(h.websites), h.registry, ids);
    DistinctCallbackIdsSize(ds);
    assert h.callbacks.Keys !! CallbackIds(ds);
    assert |t| == |t.Keys|;
    forall id | id in h.callbacks
      ensures id in t && t[id] == h.callbacks[id]
    {
      RegisterAllKeeps(h.callbacks, ds, id);
    }
  }

  /** The send and the pending probe for website i and registry entry j. */
  lemma TickSlot(h: HubState, ids: seq<string>, i: nat, j: nat)
    requires |ids| == FanOutSize(h) && FreshIds(h.callbacks, ids)
    requires i < |ActiveWebsites(h.websites)| && j < |h.registry|
    ensures var act := ActiveWebsites(h.websites);
            var o := SchedulerTick(h, ids);
            var k := Slot(i, j, |h.registry|);
            && k < |ids|
            && o.sent[k] == Send(h.registry[j].socket, Validate(ProbeRequest(act[i].url, ids[k], act[i].id)))
            && ids[k] in o.hub.callbacks
            && o.hub.callbacks[ids[k]] == PendingProbe(ids[k], act[i].id, act[i].url, h.registry[j].publicKey)
  {
    var act := ActiveWebsites(h.websites);
    var ds := FanOut(act, h.registry, ids);
    var k := Slot(i, j, |h.registry|);
    FanOutAt(act, h.registry, ids, i, j);
    assert ds[k] == ProbeOf(act[i], h.registry[j], ids[k]);
    FanOutDistinct(h, ids);
    RegisterAllLast(h.callbacks, ds, k);
  }

  /** Every probe of one run of the periodic task is of a website that is
      not disabled. */
  lemma {:induction false} FanOutSkipsDisabled(h: HubState, ids: seq<string>, w: Website)
    requires |ids| == FanOutSize(h)
    requires forall v :: v in h.websites && v.id == w.id ==> v.disabled
    ensures forall d :: d in FanOut(ActiveWebsites(h.websites), h.registry, ids) ==> d.probe.websiteId != w.id
  {
    var act := ActiveWebsites(h.websites);
    FanOutSources(act, h.registry, ids);
    forall d | d in FanOut(act, h.registry, ids)
      ensures d.probe.websiteId != w.id
    {
      var i :| 0 <= i < |act| && d.probe.websiteId == act[i].id && d.probe.url == act[i].url;
      assert act[i] in act;
    }
  }

  /** A disabled website gets no `validate` message, provided no other
      website row shares its id. */
  lemma DisabledWebsiteNotSent(h: HubState, ids: seq<string>, w: Website)
    requires |ids| == FanOutSize(h)
    requires w in h.websites && w.disabled
    requires forall v :: v in h.websites && v.id == w.id ==> v.disabled
    ensures var sent := SchedulerTick(h, ids).sent;
            forall k :: 0 <= k < |sent| ==> sent[k].message.Validate? && sent[k].message.request.websiteId != w.id
  {
    var ds := FanOut(ActiveWebsites(h.websites), h.registry, ids);
    FanOutSkipsDisabled(h, ids, w);
    forall k | 0 <= k < |ds|
      ensures SchedulerTick(h, ids).sent[k].message.Validate?
      ensures SchedulerTick(h, ids).sent[k].message.request.websiteId != w.id
    {
      assert ds[k] in ds;
    }
  }

  /** A disabled website gets no pending probe, provided no other website
      row shares its id. */
  lemma DisabledWebsiteNotRegistered(h: HubState, ids: seq<string>, w: Website)
    requires |ids| == FanOutSize(h)
    requires w in h.websites && w.disabled
    requires forall v :: v in h.websites && v.id == w.id ==> v.disabled
    ensures forall id :: id in SchedulerTick(h, ids).hub.callbacks && id !in h.callbacks
                         ==> SchedulerTick(h, ids).hub.callbacks[id].websiteId != w.id
  {
    var ds := FanOut(ActiveWebsites(h.websites), h.registry, ids);
    FanOutSkipsDisabled(h, ids, w);
    forall id | id in SchedulerTick(h, ids).hub.callbacks && id !in h.callbacks
      ensures SchedulerTick(h, ids).hub.callbacks[id].websiteId != w.id
    {
      var k :| 0 <= k < |ds| && ds[k].probe.callbackId == id;
      var last := LastWithId(ds, k);
      RegisterAllLast(h.callbacks, ds, last);
      assert ds[last] in ds;
    }
  }

  /** The last position in `ds` whose callback id equals that at position k. */
  function LastWithId(ds: seq<Dispatch>, k: nat): (r: nat)
    requires k < |ds|
    ensures k <= r < |ds| && ds[r].probe.callbackId == ds[k].probe.callbackId
    ensures forall m :: r < m < |ds| ==> ds[m].probe.callbackId != ds[r].probe.callbackId
    decreases |ds| - k
  {
    if forall m :: k < m < |ds| ==> ds[m].probe.callbackId != ds[k].probe.callbackId then k
    else
      var m :| k < m < |ds| && ds[m].probe.callbackId == ds[k].probe.callbackId;
      LastWithId(ds, m)
  }
}
