/**
 * The interaction store of packages/stores/src/core/interaction/interaction.ts
 * as values: its three collections, every read and every update of them as a
 * function, and the properties of the resolve flows and of `rejectAll` as
 * lemmas. The class in module Interaction is proved to follow these functions.
 */
module InteractionModel {
  import opened Options
  import opened ArrayMethods

  /** The event type the background emits when it has finished with an interaction. */
  const InteractionEnds: string := "interaction-ends"

  /** A JSON payload. The store only ever reads its `id` property. */
  datatype Payload = Payload(id: Option<string>)

  /** `InteractionWaitingData`: one pending request; `kind` is its `type` tag. */
  datatype WaitingData = WaitingData(id: string, kind: string, isInternal: bool, data: Payload)

  /** An entry of `events`: a type tag and a payload, `None` when the payload is falsy. */
  datatype InteractionEvent = InteractionEvent(kind: string, data: Option<Payload>)

  /** `ApproveInteractionMsg` and `RejectInteractionMsg`, the messages sent to the background port. */
  datatype BackgroundMsg = ApproveInteraction(id: string, result: Payload) | RejectInteraction(id: string)

  /** What a flow does outside the store: send a message, or call its `afterFn` with `proceedNext`. */
  datatype Effect = Sent(msg: BackgroundMsg) | ProceedNext(proceedNext: bool)

  /** The store's state: the pending requests, the obsolete flags and the events. */
  datatype Store = Store(data: seq<WaitingData>, obsoleteData: map<string, bool>, events: seq<InteractionEvent>)

  /** The store after one call, and what the call did outside it, in order. */
  datatype Run = Run(store: Store, effects: seq<Effect>)

  /** A record with this id is pending. */
  ghost predicate Pending(s: Store, id: string) {
    exists i :: 0 <= i < |s.data| && s.data[i].id == id
  }

  /**
   * Every obsolete flag belongs to a pending request: a flag is only set for an
   * id that has a record, and it is deleted together with the records.
   */
  ghost predicate FlagsTracked(s: Store) {
    forall k :: k in s.obsoleteData ==> Pending(s, k)
  }

  // ---------------------------------------------------------------- reads

  /** `getAllData(type)`: the pending requests of one type. */
  function GetAllData(s: Store, kind: string): seq<WaitingData>
  {
    Filter(s.data, (d: WaitingData) => d.kind == kind)
  }

  /** `getAllData(type)` returns the pending requests of that type, each as often as it is pending, in their order. */
  lemma GetAllDataSpec(s: Store, kind: string)
    ensures IsSubsequence(GetAllData(s, kind), s.data)
    ensures forall d :: multiset(GetAllData(s, kind))[d] == if d.kind == kind then multiset(s.data)[d] else 0
  {
    FilterKeepsOrder(s.data, (d: WaitingData) => d.kind == kind);
    FilterCounts(s.data, (d: WaitingData) => d.kind == kind);
  }

  /** `getData(id)`: the first pending request with this id, if there is one. */
  function GetData(s: Store, id: string): Option<WaitingData>
  {
    Find(s.data, (d: WaitingData) => d.id == id)
  }

  /** `getData(id)` finds nothing exactly when no request with this id is pending, and otherwise the first one. */
  lemma GetDataSpec(s: Store, id: string)
    ensures GetData(s, id).None? <==> !Pending(s, id)
    ensures GetData(s, id).Some? ==>
              exists i :: 0 <= i < |s.data| && s.data[i] == GetData(s, id).value && GetData(s, id).value.id == id &&
                          forall j :: 0 <= j < i ==> s.data[j].id != id
  {
    FindSpec(s.data, (d: WaitingData) => d.id == id);
  }

  /**
   * `isObsoleteInteraction(id)`: the stored flag; false for an undefined or
   * empty id and for an id that has no flag.
   */
  function IsObsoleteInteraction(s: Store, id: Option<string>): (b: bool)
    ensures id == None || id == Some("") ==> !b
    ensures id.Some? && id.value !in s.obsoleteData ==> !b
    ensures id.Some? && id.value != "" && id.value in s.obsoleteData ==> b == s.obsoleteData[id.value]
  {
    if id.None? || id.value == "" then false
    else if id.value in s.obsoleteData then s.obsoleteData[id.value]
    else false
  }

  /** `hasOtherData(id)`: whether some pending request has another id. */
  function HasOtherData(s: Store, id: string): bool
  {
    Find(s.data, (d: WaitingData) => d.id != id).Some?
  }

  /** `hasOtherData(id)` is true exactly when some pending request has a different id. */
  lemma HasOtherDataSpec(s: Store, id: string)
    ensures HasOtherData(s, id) <==> exists i :: 0 <= i < |s.data| && s.data[i].id != id
  {
    FindSpec(s.data, (d: WaitingData) => d.id != id);
  }

  /** The event announces the end of the interaction `id`. */
  predicate IsEndOf(e: InteractionEvent, id: string) {
    e.kind == InteractionEnds && e.data.Some? && e.data.value.id == Some(id)
  }

  /** `waitInteractionEnd(id)` as a condition: whether it returns at once. */
  function WaitInteractionEnd(s: Store, id: string): bool
  {
    Find(s.events, (e: InteractionEvent) => IsEndOf(e, id)).Some?
  }

  /** `waitInteractionEnd(id)` returns at once exactly when an "interaction-ends" event for `id` has been received. */
  lemma WaitInteractionEndSpec(s: Store, id: string)
    ensures WaitInteractionEnd(s, id) <==> exists i :: 0 <= i < |s.events| && IsEndOf(s.events[i], id)
  {
    FindSpec(s.events, (e: InteractionEvent) => IsEndOf(e, id));
  }

  /** A resolve flow on `id` gets past its guard: the request is pending and not obsolete. */
  predicate CanResolve(s: Store, id: string) {
    GetData(s, id).Some? && !IsObsoleteInteraction(s, Some(id))
  }

  // ---------------------------------------------------------------- updates

  /** `onInteractionDataReceived(data)`: the request is pushed at the end of `data`. */
  function Receive(s: Store, d: WaitingData): Store
  {
    s.(data := s.data + [d])
  }

  /** `onEventDataReceived(event)`: the event is pushed at the end of `events`. */
  function ReceiveEvent(s: Store, e: InteractionEvent): Store
  {
    s.(events := s.events + [e])
  }

  /** The requests whose id is not in `ids`, in their order. */
  function KeepUnless(data: seq<WaitingData>, ids: set<string>): seq<WaitingData>
  {
    Filter(data, (d: WaitingData) => d.id !in ids)
  }

  /** Keeping the requests whose id is not in `ids` keeps each of them as often as it occurs, and nothing else. */
  lemma KeepUnlessSpec(data: seq<WaitingData>, ids: set<string>)
    ensures forall d :: multiset(KeepUnless(data, ids))[d] == if d.id in ids then 0 else multiset(data)[d]
    ensures forall i :: 0 <= i < |KeepUnless(data, ids)| ==> KeepUnless(data, ids)[i].id !in ids
  {
    FilterCounts(data, (d: WaitingData) => d.id !in ids);
  }

  /** `markAsObsolete(id)`: sets the flag of `id` when a request with that id is pending. */
  function MarkAsObsolete(s: Store, id: string): Store
  {
    if GetData(s, id).Some? then s.(obsoleteData := s.obsoleteData[id := true]) else s
  }

  /**
   * `markAsObsolete(id)` sets the flag exactly when a request with this id is
   * pending, and otherwise changes nothing; it never touches the requests.
   */
  lemma MarkAsObsoleteSpec(s: Store, id: string)
    ensures MarkAsObsolete(s, id).data == s.data && MarkAsObsolete(s, id).events == s.events
    ensures Pending(s, id) ==> MarkAsObsolete(s, id).obsoleteData == s.obsoleteData[id := true]
    ensures !Pending(s, id) ==> MarkAsObsolete(s, id) == s
  {
    GetDataSpec(s, id);
  }

  /** `removeData(id)`: filters out the requests with this id and deletes its flag. */
  function RemoveData(s: Store, id: string): Store
  {
    s.(data := KeepUnless(s.data, {id}), obsoleteData := s.obsoleteData - {id})
  }

  /**
   * `removeData(id)` drops every request with this id and no other, deletes
   * the flag of `id` and no other, and leaves the events alone.
   */
  lemma RemoveDataSpec(s: Store, id: string)
    ensures forall d :: multiset(RemoveData(s, id).data)[d] == if d.id == id then 0 else multiset(s.data)[d]
    ensures !Pending(RemoveData(s, id), id)
    ensures RemoveData(s, id).obsoleteData.Keys == s.obsoleteData.Keys - {id}
    ensures forall k :: k in RemoveData(s, id).obsoleteData ==> RemoveData(s, id).obsoleteData[k] == s.obsoleteData[k]
    ensures RemoveData(s, id).events == s.events
  {
    KeepUnlessSpec(s.data, {id});
  }

  // ---------------------------------------------------------------- resolve flows

  /**
   * The part of every resolve flow before its first suspension: give up when
   * the request is missing or obsolete; otherwise mark it obsolete, and only
   * then send `msg`.
   */
  function BeginResolve(s: Store, msg: BackgroundMsg): Run
  {
    if !CanResolve(s, msg.id) then Run(s, [])
    else Run(MarkAsObsolete(s, msg.id), [Sent(msg)])
  }

  /**
   * A flow that gets past its guard sends its one message with the request
   * already obsolete, so while it is suspended after the send no other flow
   * on a non-empty id gets past the guard; one that does not get past it
   * sends nothing and changes nothing.
   */
  lemma BeginResolveSpec(s: Store, msg: BackgroundMsg)
    ensures !CanResolve(s, msg.id) ==> BeginResolve(s, msg) == Run(s, [])
    ensures CanResolve(s, msg.id) ==>
              && BeginResolve(s, msg).effects == [Sent(msg)]
              && BeginResolve(s, msg).store.data == s.data && BeginResolve(s, msg).store.events == s.events
              && BeginResolve(s, msg).store.obsoleteData == s.obsoleteData[msg.id := true]
    ensures CanResolve(s, msg.id) && msg.id != "" ==> !CanResolve(BeginResolve(s, msg).store, msg.id)
  {
    GetDataSpec(s, msg.id);
  }

  /** The part after the wait: call `afterFn(hasOtherData(id))`, then `removeData(id)`. */
  function FinishResolve(s: Store, id: string): Run
  {
    Run(RemoveData(s, id), [ProceedNext(HasOtherData(s, id))])
  }

  /**
   * `approveWithProceedNext` (with an `ApproveInteraction` message) and
   * `rejectWithProceedNext` (with a `RejectInteraction` message): the delay is
   * not modelled, so the flow is its two parts one after the other.
   */
  function ResolveWithProceedNext(s: Store, msg: BackgroundMsg): Run
  {
    var begun := BeginResolve(s, msg);
    if !CanResolve(s, msg.id) then begun
    else
      var finished := FinishResolve(begun.store, msg.id);
      Run(finished.store, begun.effects + finished.effects)
  }

  /**
   * A resolve flow that gets past its guard sends its message, then calls
   * `afterFn` with whether a request with another id was pending before the
   * removal, and leaves the store without the request and its flag; any
   * other flow sends nothing and changes nothing. Either way the request
   * cannot be resolved again.
   */
  lemma ResolveWithProceedNextSpec(s: Store, msg: BackgroundMsg)
    ensures !CanResolve(s, msg.id) ==> ResolveWithProceedNext(s, msg) == Run(s, [])
    ensures CanResolve(s, msg.id) ==>
      var r := ResolveWithProceedNext(s, msg);
      && r.effects == [Sent(msg), ProceedNext(exists i :: 0 <= i < |s.data| && s.data[i].id != msg.id)]
      && (forall d :: multiset(r.store.data)[d] == if d.id == msg.id then 0 else multiset(s.data)[d])
      && r.store.obsoleteData.Keys == s.obsoleteData.Keys - {msg.id}
      && (forall k :: k in r.store.obsoleteData ==> r.store.obsoleteData[k] == s.obsoleteData[k])
      && r.store.events == s.events
    ensures CanResolve(s, msg.id) ==> ResolveWithProceedNext(s, msg).store == RemoveData(s, msg.id)
    ensures !CanResolve(ResolveWithProceedNext(s, msg).store, msg.id)
  {
    var begun := BeginResolve(s, msg);
    BeginResolveSpec(s, msg);
    if CanResolve(s, msg.id) {
      HasOtherDataSpec(begun.store, msg.id);
      RemoveDataSpec(begun.store, msg.id);
      GetDataSpec(RemoveData(begun.store, msg.id), msg.id);
      assert s.obsoleteData[msg.id := true] - {msg.id} == s.obsoleteData - {msg.id};
    }
  }

  /**
   * `approveWithProceedNextV2`: after sending the approval it waits for the
   * "interaction-ends" event of `id`. When that event has already arrived the
   * flow runs to the end; otherwise it stays suspended after the send.
   */
  function ApproveWithProceedNextV2(s: Store, id: string, result: Payload): Run
  {
    var msg := ApproveInteraction(id, result);
    var begun := BeginResolve(s, msg);
    if !CanResolve(s, id) || !WaitInteractionEnd(begun.store, id) then begun
    else
      var finished := FinishResolve(begun.store, id);
      Run(finished.store, begun.effects + finished.effects)
  }

  /**
   * With the end event already received, `approveWithProceedNextV2` does what
   * `approveWithProceedNext` does; without it, it stops after the send with
   * the request still pending and obsolete. Either way a non-empty id cannot
   * be resolved again.
   */
  lemma ApproveWithProceedNextV2Spec(s: Store, id: string, result: Payload)
    ensures WaitInteractionEnd(s, id) ==>
              ApproveWithProceedNextV2(s, id, result) == ResolveWithProceedNext(s, ApproveInteraction(id, result))
    ensures CanResolve(s, id) && !WaitInteractionEnd(s, id) ==>
              && ApproveWithProceedNextV2(s, id, result).effects == [Sent(ApproveInteraction(id, result))]
              && ApproveWithProceedNextV2(s, id, result).store.data == s.data
              && ApproveWithProceedNextV2(s, id, result).store.events == s.events
              && (id != "" ==> IsObsoleteInteraction(ApproveWithProceedNextV2(s, id, result).store, Some(id)))
    ensures CanResolve(s, id) && !WaitInteractionEnd(s, id) ==>
              ApproveWithProceedNextV2(s, id, result) == BeginResolve(s, ApproveInteraction(id, result))
    ensures !CanResolve(s, id) ==> ApproveWithProceedNextV2(s, id, result) == Run(s, [])
    ensures id != "" ==> !CanResolve(ApproveWithProceedNextV2(s, id, result).store, id)
  {
    var msg := ApproveInteraction(id, result);
    BeginResolveSpec(s, msg);
    ResolveWithProceedNextSpec(s, msg);
  }

  // ---------------------------------------------------------------- rejectAll

  /**
   * The loop of `rejectAll` over the snapshot `pending`: for each request in
   * turn, skip it when its id is obsolete now, otherwise send a rejection and
   * remove its id. Written over the last request so that it follows the loop.
   */
  function RejectAllFrom(s: Store, pending: seq<WaitingData>): (r: Run)
    ensures r.store.events == s.events
    decreases |pending|
  {
    if pending == [] then Run(s, [])
    else
      var prev := RejectAllFrom(s, pending[..|pending| - 1]);
      var d := pending[|pending| - 1];
      if IsObsoleteInteraction(prev.store, Some(d.id)) then prev
      else Run(RemoveData(prev.store, d.id), prev.effects + [Sent(RejectInteraction(d.id))])
  }

  /** The turn of the loop of `rejectAll` on the request at index `i` of the snapshot. */
  lemma RejectAllFromNext(s: Store, pending: seq<WaitingData>, i: nat)
    requires i < |pending|
    ensures var prev := RejectAllFrom(s, pending[..i]);
            var d := pending[i];
            RejectAllFrom(s, pending[..i + 1]) ==
              if IsObsoleteInteraction(prev.store, Some(d.id)) then prev
              else Run(RemoveData(prev.store, d.id), prev.effects + [Sent(RejectInteraction(d.id))])
  {
    assert pending[..i + 1][..i] == pending[..i];
  }

  /** `rejectAll(type)`: the loop over a snapshot of the requests of that type. */
  function RejectAll(s: Store, kind: string): Run
  {
    RejectAllFrom(s, GetAllData(s, kind))
  }

  /** The requests of `pending` whose id is not obsolete in `s`, in their order. */
  function Rejectable(s: Store, pending: seq<WaitingData>): (r: seq<WaitingData>)
    ensures forall i :: 0 <= i < |r| ==> !IsObsoleteInteraction(s, Some(r[i].id))
    ensures forall d :: multiset(r)[d] == if IsObsoleteInteraction(s, Some(d.id)) then 0 else multiset(pending)[d]
    ensures IsSubsequence(r, pending)
  {
    FilterKeepsOrder(pending, (d: WaitingData) => !IsObsoleteInteraction(s, Some(d.id)));
    FilterCounts(pending, (d: WaitingData) => !IsObsoleteInteraction(s, Some(d.id)));
    Filter(pending, (d: WaitingData) => !IsObsoleteInteraction(s, Some(d.id)))
  }

  /** One rejection per request, in order. */
  function Rejections(q: seq<WaitingData>): (r: seq<Effect>)
    ensures |r| == |q|
    ensures forall i :: 0 <= i < |q| ==> r[i] == Sent(RejectInteraction(q[i].id))
  {
    seq(|q|, i requires 0 <= i < |q| => Sent(RejectInteraction(q[i].id)))
  }

  /** The ids of a sequence of requests. */
  function IdsOf(q: seq<WaitingData>): (ids: set<string>)
    ensures forall i :: 0 <= i < |q| ==> q[i].id in ids
    ensures forall k :: k in ids ==> exists i :: 0 <= i < |q| && q[i].id == k
  {
    set i | 0 <= i < |q| :: q[i].id
  }

  // ---------------------------------------------------------------- lemmas

  /** `markAsObsolete` sets a flag only for a pending request. */
  lemma MarkAsObsoleteKeepsFlagsTracked(s: Store, id: string)
    requires FlagsTracked(s)
    ensures FlagsTracked(MarkAsObsolete(s, id))
  {
    GetDataSpec(s, id);
  }

  /** `removeData` deletes the flag of the id whose requests it drops. */
  lemma RemoveDataKeepsFlagsTracked(s: Store, id: string)
    requires FlagsTracked(s)
    ensures FlagsTracked(RemoveData(s, id))
  {
    RemoveDataSpec(s, id);
    var r := RemoveData(s, id);
    forall k | k in r.obsoleteData ensures Pending(r, k) {
      var i :| 0 <= i < |s.data| && s.data[i].id == k;
      var d := s.data[i];
      assert multiset(r.data)[d] == multiset(s.data)[d] > 0;
      assert d in r.data;
      var j :| 0 <= j < |r.data| && r.data[j] == d;
    }
  }

  /** Every resolve flow keeps every obsolete flag attached to a pending request. */
  lemma ResolveKeepsFlagsTracked(s: Store, msg: BackgroundMsg, result: Payload)
    requires FlagsTracked(s)
    ensures FlagsTracked(BeginResolve(s, msg).store)
    ensures FlagsTracked(ResolveWithProceedNext(s, msg).store)
    ensures FlagsTracked(ApproveWithProceedNextV2(s, msg.id, result).store)
  {
    MarkAsObsoleteKeepsFlagsTracked(s, msg.id);
    if CanResolve(s, msg.id) {
      RemoveDataKeepsFlagsTracked(MarkAsObsolete(s, msg.id), msg.id);
    }
  }

  /** A received request only adds a pending id, so every flag stays attached. */
  lemma ReceiveKeepsFlagsTracked(s: Store, d: WaitingData)
    requires FlagsTracked(s)
    ensures FlagsTracked(Receive(s, d))
  {
    var r := Receive(s, d);
    forall k | k in r.obsoleteData ensures Pending(r, k) {
      var i :| 0 <= i < |s.data| && s.data[i].id == k;
      assert r.data[i] == s.data[i];
    }
  }

  /** A received request joins the end of the requests of its type, and no other type's. */
  lemma ReceiveThenGetAllData(s: Store, d: WaitingData, kind: string)
    ensures GetAllData(Receive(s, d), kind) == GetAllData(s, kind) + (if d.kind == kind then [d] else [])
  {
    FilterSnoc(s.data, d, (d: WaitingData) => d.kind == kind);
  }

  /**
   * `getData` finds a received request unless an earlier request has the same
   * id, and it still finds the same request for every other id.
   */
  lemma ReceiveThenGetData(s: Store, d: WaitingData, id: string)
    ensures GetData(Receive(s, d), id) == if id == d.id && !Pending(s, id) then Some(d) else GetData(s, id)
  {
    GetDataSpec(s, id);
    FindSnoc(s.data, d, (d: WaitingData) => d.id == id);
  }

  /**
   * A flag never outlives its requests, so a request received under an id
   * with nothing pending can be resolved: no stale flag of an earlier request
   * with that id shuts it out.
   */
  lemma ReceiveFreshIsResolvable(s: Store, d: WaitingData)
    requires FlagsTracked(s) && !Pending(s, d.id)
    ensures CanResolve(Receive(s, d), d.id)
  {
    ReceiveThenGetData(s, d, d.id);
  }

  /** `waitInteractionEnd(id)` returns at once after an event exactly when it did before or the event ends `id`. */
  lemma {:induction false} ReceiveEventThenWait(s: Store, e: InteractionEvent, id: string)
    ensures WaitInteractionEnd(ReceiveEvent(s, e), id) <==> WaitInteractionEnd(s, id) || IsEndOf(e, id)
  {
    FindSnoc(s.events, e, (e: InteractionEvent) => IsEndOf(e, id));
  }

  /** Events change neither the requests nor the flags, nor any answer of `getData` or `isObsoleteInteraction`. */
  lemma ReceiveEventKeepsRequests(s: Store, e: InteractionEvent, id: string)
    ensures FlagsTracked(s) ==> FlagsTracked(ReceiveEvent(s, e))
    ensures GetData(ReceiveEvent(s, e), id) == GetData(s, id)
    ensures IsObsoleteInteraction(ReceiveEvent(s, e), Some(id)) == IsObsoleteInteraction(s, Some(id))
  {
  }

  /** The loop of `rejectAll` keeps every obsolete flag attached to a pending request. */
  lemma {:induction false} RejectAllFromKeepsFlagsTracked(s: Store, pending: seq<WaitingData>)
    requires FlagsTracked(s)
    ensures FlagsTracked(RejectAllFrom(s, pending).store)
    decreases |pending|
  {
    if pending != [] {
      var front := pending[..|pending| - 1];
      RejectAllFromKeepsFlagsTracked(s, front);
      RemoveDataKeepsFlagsTracked(RejectAllFrom(s, front).store, pending[|pending| - 1].id);
    }
  }

  /** `removeData` keeps the remaining requests in their order. */
  lemma RemoveDataKeepsOrder(s: Store, id: string)
    ensures IsSubsequence(RemoveData(s, id).data, s.data)
  {
    KeepUnlessKeepsOrder(s.data, {id});
  }

  /** Dropping the requests with the given ids keeps the others in their order. */
  lemma KeepUnlessKeepsOrder(data: seq<WaitingData>, ids: set<string>)
    ensures IsSubsequence(KeepUnless(data, ids), data)
  {
    FilterKeepsOrder(data, (d: WaitingData) => d.id !in ids);
  }

  /** Removing one more id from the kept requests is keeping them unless their id is in the larger set. */
  lemma {:induction false} KeepUnlessGrow(data: seq<WaitingData>, ids: set<string>, id: string)
    ensures KeepUnless(KeepUnless(data, ids), {id}) == KeepUnless(data, ids + {id})
  {
    if data != [] {
      KeepUnlessGrow(data[1..], ids, id);
      var rest := KeepUnless(data[1..], ids);
      if data[0].id !in ids {
        assert KeepUnless(data, ids) == [data[0]] + rest;
        assert ([data[0]] + rest)[1..] == rest;
      }
    }
  }

  /** Deleting the flags of ids that are not obsolete does not change what `isObsoleteInteraction` answers. */
  lemma ForgetNonObsolete(s: Store, t: Store, ids: set<string>)
    requires forall k :: k in ids ==> !IsObsoleteInteraction(s, Some(k))
    requires t.obsoleteData == s.obsoleteData - ids
    ensures forall k :: IsObsoleteInteraction(t, Some(k)) == IsObsoleteInteraction(s, Some(k))
  {
  }

  /** The ids of a sequence with one more request at its end gain that request's id. */
  lemma IdsOfSnoc(q: seq<WaitingData>, d: WaitingData)
    ensures IdsOf(q + [d]) == IdsOf(q) + {d.id}
  {
    var q' := q + [d];
    forall k | k in IdsOf(q') ensures k in IdsOf(q) + {d.id} {
      var i :| 0 <= i < |q'| && q'[i].id == k;
      if i < |q| { assert q[i] == q'[i]; }
    }
    forall k | k in IdsOf(q) ensures k in IdsOf(q') {
      var i :| 0 <= i < |q| && q[i].id == k;
      assert q'[i] == q[i];
    }
    assert q'[|q|] == d;
  }

  /** One more request at the end means one more rejection at the end. */
  lemma RejectionsSnoc(q: seq<WaitingData>, d: WaitingData)
    ensures Rejections(q + [d]) == Rejections(q) + [Sent(RejectInteraction(d.id))]
  {
  }

  /** A request added at the end of the snapshot is rejectable exactly when its id is not obsolete. */
  lemma RejectableSnoc(s: Store, front: seq<WaitingData>, d: WaitingData)
    ensures Rejectable(s, front + [d]) == Rejectable(s, front) + (if IsObsoleteInteraction(s, Some(d.id)) then [] else [d])
  {
    FilterSnoc(front, d, (d: WaitingData) => !IsObsoleteInteraction(s, Some(d.id)));
  }

  /**
   * The loop of `rejectAll` in closed form: one rejection per request of the
   * snapshot whose id is not obsolete in the store the loop started from, in
   * order, and exactly those ids removed with their flags.
   */
  function RejectAllOutcome(s: Store, pending: seq<WaitingData>): Run
  {
    var q := Rejectable(s, pending);
    Run(Store(KeepUnless(s.data, IdsOf(q)), s.obsoleteData - IdsOf(q), s.events), Rejections(q))
  }

  /** Removing no ids keeps every request. */
  lemma {:induction false} KeepUnlessNothing(data: seq<WaitingData>)
    ensures KeepUnless(data, {}) == data
  {
    if data != [] {
      KeepUnlessNothing(data[1..]);
    }
  }

  /** With nothing to reject the closed form is the store unchanged and no effect. */
  lemma NothingRejectable(s: Store, pending: seq<WaitingData>)
    requires Rejectable(s, pending) == []
    ensures RejectAllOutcome(s, pending) == Run(s, [])
  {
    assert IdsOf([]) == {};
    KeepUnlessNothing(s.data);
    assert s.obsoleteData - {} == s.obsoleteData;
  }

  /**
   * One more turn of the loop. The skip test reads the current store, but a
   * flag has been deleted only together with a request that was not skipped,
   * so it answers as the store the loop started from would.
   */
  lemma RejectAllFromStep(s: Store, front: seq<WaitingData>, d: WaitingData)
    requires RejectAllFrom(s, front) == RejectAllOutcome(s, front)
    ensures RejectAllFrom(s, front + [d]) == RejectAllOutcome(s, front + [d])
  {
    var prev := RejectAllFrom(s, front);
    ForgetNonObsolete(s, prev.store, IdsOf(Rejectable(s, front)));
    RejectableSnoc(s, front, d);
    if IsObsoleteInteraction(s, Some(d.id)) {
      RejectAllFromSkip(s, front, d);
    } else {
      RejectAllFromReject(s, front, d);
    }
  }

  /** The turn of the loop that skips an obsolete request agrees with the closed form. */
  lemma RejectAllFromSkip(s: Store, front: seq<WaitingData>, d: WaitingData)
    requires RejectAllFrom(s, front) == RejectAllOutcome(s, front)
    requires IsObsoleteInteraction(RejectAllFrom(s, front).store, Some(d.id))
    requires Rejectable(s, front + [d]) == Rejectable(s, front)
    ensures RejectAllFrom(s, front + [d]) == RejectAllOutcome(s, front + [d])
  {
    var pending := front + [d];
    assert pending[..|pending| - 1] == front && pending[|pending| - 1] == d;
  }

  /** Deleting two sets of keys one after the other is deleting their union. */
  lemma MinusTwice(m: map<string, bool>, a: set<string>, b: set<string>)
    ensures m - a - b == m - (a + b)
  {
  }

  /** The turn of the loop that rejects a request agrees with the closed form. */
  lemma RejectAllFromReject(s: Store, front: seq<WaitingData>, d: WaitingData)
    requires RejectAllFrom(s, front) == RejectAllOutcome(s, front)
    requires !IsObsoleteInteraction(RejectAllFrom(s, front).store, Some(d.id))
    requires Rejectable(s, front + [d]) == Rejectable(s, front) + [d]
    ensures RejectAllFrom(s, front + [d]) == RejectAllOutcome(s, front + [d])
  {
    var pending := front + [d];
    assert pending[..|pending| - 1] == front && pending[|pending| - 1] == d;
    var prev := RejectAllFrom(s, front);
    var q0 := Rejectable(s, front);
    var ids := IdsOf(q0);
    var removed := RemoveData(prev.store, d.id);
    assert RejectAllFrom(s, pending) == Run(removed, prev.effects + [Sent(RejectInteraction(d.id))]);
    var q := q0 + [d];
    assert IdsOf(q) == ids + {d.id} by { IdsOfSnoc(q0, d); }
    assert removed.data == KeepUnless(s.data, IdsOf(q)) by {
      KeepUnlessGrow(s.data, ids, d.id);
    }
    assert removed.obsoleteData == s.obsoleteData - IdsOf(q) by {
      assert removed.obsoleteData == prev.store.obsoleteData - {d.id};
      MinusTwice(s.obsoleteData, ids, {d.id});
    }
    assert prev.effects + [Sent(RejectInteraction(d.id))] == Rejections(q) by {
      RejectionsSnoc(q0, d);
    }
  }

  /** The loop of `rejectAll` computes its closed form. */
  lemma {:induction false} RejectAllFromClosedForm(s: Store, pending: seq<WaitingData>)
    ensures RejectAllFrom(s, pending) == RejectAllOutcome(s, pending)
    decreases |pending|
  {
    if pending == [] {
      NothingRejectable(s, pending);
    } else {
      var front := pending[..|pending| - 1];
      assert pending == front + [pending[|pending| - 1]];
      RejectAllFromClosedForm(s, front);
      RejectAllFromStep(s, front, pending[|pending| - 1]);
    }
  }

  /** During `rejectAll` the answers of `isObsoleteInteraction` do not change. */
  lemma RejectAllFromKeepsFlags(s: Store, pending: seq<WaitingData>)
    ensures forall k :: IsObsoleteInteraction(RejectAllFrom(s, pending).store, Some(k)) == IsObsoleteInteraction(s, Some(k))
  {
    RejectAllFromClosedForm(s, pending);
    ForgetNonObsolete(s, RejectAllFrom(s, pending).store, IdsOf(Rejectable(s, pending)));
  }

  /**
   * The requests `rejectAll(type)` rejects: those of that type whose id is
   * not obsolete, each as often as it is pending, in the order of `data`.
   */
  function ToReject(s: Store, kind: string): (q: seq<WaitingData>)
    ensures forall d :: multiset(q)[d] ==
              if d.kind == kind && !IsObsoleteInteraction(s, Some(d.id)) then multiset(s.data)[d] else 0
    ensures IsSubsequence(q, s.data)
  {
    GetAllDataSpec(s, kind);
    SubsequenceTrans(Rejectable(s, GetAllData(s, kind)), GetAllData(s, kind), s.data);
    Rejectable(s, GetAllData(s, kind))
  }

  /** `rejectAll(type)` sends one rejection per request it rejects, in their order. */
  lemma RejectAllSends(s: Store, kind: string)
    ensures RejectAll(s, kind).effects == Rejections(ToReject(s, kind))
  {
    RejectAllFromClosedForm(s, GetAllData(s, kind));
  }

  /** An obsolete request is still pending after `rejectAll`. */
  lemma RejectAllKeepsObsoleteRequests(s: Store, kind: string)
    ensures forall i :: 0 <= i < |s.data| && IsObsoleteInteraction(s, Some(s.data[i].id)) ==>
              s.data[i] in RejectAll(s, kind).store.data
  {
    var q := ToReject(s, kind);
    RejectAllFromClosedForm(s, GetAllData(s, kind));
    var kept := KeepUnless(s.data, IdsOf(q));
    KeepUnlessSpec(s.data, IdsOf(q));
    assert RejectAll(s, kind).store.data == kept;
    forall i | 0 <= i < |s.data| && IsObsoleteInteraction(s, Some(s.data[i].id))
      ensures s.data[i] in kept
    {
      var d := s.data[i];
      assert d.id !in IdsOf(q);
      assert multiset(kept)[d] == multiset(s.data)[d] > 0;
    }
  }

  /** Every request `rejectAll(type)` rejects is gone afterwards, with all requests sharing its id. */
  lemma RejectAllRemovesRejected(s: Store, kind: string)
    ensures forall i :: 0 <= i < |s.data| && s.data[i].kind == kind && !IsObsoleteInteraction(s, Some(s.data[i].id)) ==>
              !Pending(RejectAll(s, kind).store, s.data[i].id)
  {
    var q := ToReject(s, kind);
    RejectAllFromClosedForm(s, GetAllData(s, kind));
    var after := RejectAll(s, kind).store;
    assert after.data == KeepUnless(s.data, IdsOf(q));
    assert forall j :: 0 <= j < |after.data| ==> after.data[j].id !in IdsOf(q);
    forall i | 0 <= i < |s.data| && s.data[i].kind == kind && !IsObsoleteInteraction(s, Some(s.data[i].id))
      ensures s.data[i].id in IdsOf(q)
    {
      var d := s.data[i];
      assert d in multiset(s.data);
      assert d in multiset(q);
    }
  }

  /**
   * `rejectAll(type)` with no request of that type left to reject (in
   * particular with none of that type at all) sends nothing and changes nothing.
   */
  lemma RejectAllWithNothingToReject(s: Store, kind: string)
    requires forall i :: 0 <= i < |s.data| && s.data[i].kind == kind ==> IsObsoleteInteraction(s, Some(s.data[i].id))
    ensures RejectAll(s, kind) == Run(s, [])
  {
    NoneToReject(s, kind);
    RejectAllFromClosedForm(s, GetAllData(s, kind));
    NothingRejectable(s, GetAllData(s, kind));
  }

  /** When every request of the type is obsolete, `rejectAll` has nothing to reject. */
  lemma NoneToReject(s: Store, kind: string)
    requires forall i :: 0 <= i < |s.data| && s.data[i].kind == kind ==> IsObsoleteInteraction(s, Some(s.data[i].id))
    ensures ToReject(s, kind) == []
  {
  }

  /**
   * At most once: after a resolve flow on an id has run, every later resolve
   * flow on that id, approve or reject, sends nothing and changes nothing.
   */
  lemma ResolveIsAtMostOnce(s: Store, first: BackgroundMsg, second: BackgroundMsg, result: Payload)
    requires first.id == second.id
    ensures var after := ResolveWithProceedNext(s, first).store;
            && ResolveWithProceedNext(after, second) == Run(after, [])
            && ApproveWithProceedNextV2(after, second.id, result) == Run(after, [])
  {
    ResolveWithProceedNextSpec(s, first);
  }

  /**
   * Obsolescence is the mutual exclusion of the resolve flows: while a flow on
   * a non-empty id is suspended after its send, any other flow on that id
   * sends nothing and changes nothing, and `rejectAll` leaves its request in place.
   */
  lemma ObsoleteExcludesOtherFlows(s: Store, first: BackgroundMsg, second: BackgroundMsg, result: Payload, kind: string)
    requires first.id == second.id && first.id != ""
    requires CanResolve(s, first.id)
    ensures var suspended := BeginResolve(s, first).store;
            && ResolveWithProceedNext(suspended, second) == Run(suspended, [])
            && ApproveWithProceedNextV2(suspended, second.id, result) == Run(suspended, [])
            && forall i :: 0 <= i < |s.data| && s.data[i].id == first.id ==> s.data[i] in RejectAll(suspended, kind).store.data
  {
    var suspended := BeginResolve(s, first).store;
    RejectAllKeepsObsoleteRequests(suspended, kind);
  }

  /**
   * The guard does not cover the empty id, for which `isObsoleteInteraction`
   * is always false: while an approval of a request with id "" waits for its
   * end event, a rejection of the same request still gets through and is sent.
   */
  lemma EmptyIdIsNotExcluded()
    ensures var s := Store([WaitingData("", "request", false, Payload(None))], map[], []);
            var approving := ApproveWithProceedNextV2(s, "", Payload(None));
            var rejecting := ResolveWithProceedNext(approving.store, RejectInteraction(""));
            && approving.effects == [Sent(ApproveInteraction("", Payload(None)))]
            && rejecting.effects[0] == Sent(RejectInteraction(""))
  {
    var s := Store([WaitingData("", "request", false, Payload(None))], map[], []);
    assert s.data[0].id == "";
    assert !WaitInteractionEnd(s, "");
  }
}
