/**
 * `InteractionStore` of packages/stores/src/core/interaction/interaction.ts
 * as a class: the three collections are fields that the methods push to,
 * reassign and update, and a ghost log records, in order, every message sent
 * to the background and every call of a flow's `afterFn` with its argument.
 * Each method is proved to leave the state and the log as a function of
 * module InteractionModel gives them (`Receive`, `ReceiveEvent`,
 * `MarkAsObsolete`, `RemoveData`, `ResolveWithProceedNext` for both
 * non-V2 flows, `ApproveWithProceedNextV2`, `RejectAll`; one turn of the
 * `rejectAll` loop is `RemoveData` plus one rejection, or nothing), and to
 * keep every obsolete flag attached to a pending request.
 */
module Interaction {
  import opened Options
  import opened InteractionModel

  class InteractionStore {
    var data: seq<WaitingData>
    var obsoleteData: map<string, bool>
    var events: seq<InteractionEvent>
    /** What the store has done outside itself: messages sent and `afterFn` calls. */
    ghost var log: seq<Effect>

    /** The current state as a value. */
    function Value(): Store
      reads this
    {
      Store(data, obsoleteData, events)
    }

    ghost predicate Valid()
      reads this
    {
      FlagsTracked(Value())
    }

    constructor()
      ensures Value() == Store([], map[], []) && log == []
      ensures Valid()
    {
      data := [];
      obsoleteData := map[];
      events := [];
      log := [];
    }

    /** `onInteractionDataReceived(data)`. */
    method OnInteractionDataReceived(d: WaitingData)
      requires Valid()
      modifies this
      ensures data == old(data) + [d]
      ensures obsoleteData == old(obsoleteData) && events == old(events) && log == old(log)
      ensures Value() == Receive(old(Value()), d)
      ensures Valid()
      ensures !Pending(old(Value()), d.id) ==> CanResolve(Value(), d.id)
    {
      ReceiveKeepsFlagsTracked(Value(), d);
      if !Pending(Value(), d.id) {
        ReceiveFreshIsResolvable(Value(), d);
      }
      data := data + [d];
    }

    /** `onEventDataReceived(event)`. */
    method OnEventDataReceived(e: InteractionEvent)
      requires Valid()
      modifies this
      ensures events == old(events) + [e]
      ensures data == old(data) && obsoleteData == old(obsoleteData) && log == old(log)
      ensures Value() == ReceiveEvent(old(Value()), e)
      ensures Valid()
    {
      events := events + [e];
    }

    /** `markAsObsolete(id)`: sets the flag only when a request with this id is pending. */
    method MarkAsObsolete(id: string)
      requires Valid()
      modifies this
      ensures Value() == InteractionModel.MarkAsObsolete(old(Value()), id) && log == old(log)
      ensures Valid()
    {
      MarkAsObsoleteKeepsFlagsTracked(Value(), id);
      if GetData(Value(), id).Some? {
        obsoleteData := obsoleteData[id := true];
      }
    }

    /** `removeData(id)`: filters out the requests with this id and deletes its flag. */
    method RemoveData(id: string)
      requires Valid()
      modifies this
      ensures Value() == InteractionModel.RemoveData(old(Value()), id) && log == old(log)
      ensures Valid()
    {
      RemoveDataKeepsFlagsTracked(Value(), id);
      data := KeepUnless(data, {id});
      obsoleteData := obsoleteData - {id};
    }

    /**
     * The body shared by `approveWithProceedNext` and `rejectWithProceedNext`:
     * the guard, the mark, the send, then (the delay being a no-op) the call
     * of `afterFn` with `hasOtherData(id)` and the removal.
     */
    method ResolveWithProceedNext(msg: BackgroundMsg)
      requires Valid()
      modifies this
      ensures Value() == InteractionModel.ResolveWithProceedNext(old(Value()), msg).store
      ensures log == old(log) + InteractionModel.ResolveWithProceedNext(old(Value()), msg).effects
      ensures Valid()
    {
      var id := msg.id;
      var d := GetData(Value(), id);
      if d.None? || IsObsoleteInteraction(Value(), Some(id)) {
        return;
      }
      MarkAsObsolete(id);
      log := log + [Sent(msg)];
      var proceedNext := HasOtherData(Value(), id);
      log := log + [ProceedNext(proceedNext)];
      RemoveData(id);
    }

    /** `approveWithProceedNext(id, result, afterFn)`. */
    method ApproveWithProceedNext(id: string, result: Payload)
      requires Valid()
      modifies this
      ensures Value() == InteractionModel.ResolveWithProceedNext(old(Value()), ApproveInteraction(id, result)).store
      ensures log == old(log) + InteractionModel.ResolveWithProceedNext(old(Value()), ApproveInteraction(id, result)).effects
      ensures Valid()
    {
      ResolveWithProceedNext(ApproveInteraction(id, result));
    }

    /** `rejectWithProceedNext(id, afterFn)`. */
    method RejectWithProceedNext(id: string)
      requires Valid()
      modifies this
      ensures Value() == InteractionModel.ResolveWithProceedNext(old(Value()), RejectInteraction(id)).store
      ensures log == old(log) + InteractionModel.ResolveWithProceedNext(old(Value()), RejectInteraction(id)).effects
      ensures Valid()
    {
      ResolveWithProceedNext(RejectInteraction(id));
    }

    /**
     * `approveWithProceedNextV2(id, result, afterFn)`: after the send it goes
     * on only when the end event of `id` has been received; otherwise it stops
     * where the generator would stay suspended.
     */
    method ApproveWithProceedNextV2(id: string, result: Payload)
      requires Valid()
      modifies this
      ensures Value() == InteractionModel.ApproveWithProceedNextV2(old(Value()), id, result).store
      ensures log == old(log) + InteractionModel.ApproveWithProceedNextV2(old(Value()), id, result).effects
      ensures Valid()
    {
      var d := GetData(Value(), id);
      if d.None? || IsObsoleteInteraction(Value(), Some(id)) {
        return;
      }
      MarkAsObsolete(id);
      log := log + [Sent(ApproveInteraction(id, result))];
      if !WaitInteractionEnd(Value(), id) {
        return;
      }
      var proceedNext := HasOtherData(Value(), id);
      log := log + [ProceedNext(proceedNext)];
      RemoveData(id);
    }

    /** One turn of the loop of `rejectAll`: skip an obsolete id, otherwise send its rejection and remove it. */
    method RejectUnlessObsolete(d: WaitingData)
      requires Valid()
      modifies this
      ensures IsObsoleteInteraction(old(Value()), Some(d.id)) ==> Value() == old(Value()) && log == old(log)
      ensures !IsObsoleteInteraction(old(Value()), Some(d.id)) ==>
        Value() == InteractionModel.RemoveData(old(Value()), d.id) && log == old(log) + [Sent(RejectInteraction(d.id))]
      ensures Valid()
    {
      if IsObsoleteInteraction(Value(), Some(d.id)) {
        return;
      }
      log := log + [Sent(RejectInteraction(d.id))];
      RemoveData(d.id);
    }

    /**
     * `rejectAll(type)`: over a snapshot of the requests of that type, skip
     * each one whose id is obsolete now, otherwise send its rejection and
     * remove its id.
     */
    method RejectAll(kind: string)
      requires Valid()
      modifies this
      ensures Value() == InteractionModel.RejectAll(old(Value()), kind).store
      ensures log == old(log) + InteractionModel.RejectAll(old(Value()), kind).effects
      ensures Valid()
    {
      var pending := GetAllData(Value(), kind);
      ghost var start := Value();
      ghost var log0 := log;
      ghost var run := Run(start, []);
      var i := 0;
      while i < |pending|
        invariant 0 <= i <= |pending|
        invariant run == RejectAllFrom(start, pending[..i])
        invariant Value() == run.store && log == log0 + run.effects
        invariant Valid()
      {
        RejectAllFromNext(start, pending, i);
        var d := pending[i];
        if !IsObsoleteInteraction(run.store, Some(d.id)) {
          assert log0 + run.effects + [Sent(RejectInteraction(d.id))] == log0 + (run.effects + [Sent(RejectInteraction(d.id))]);
          run := Run(InteractionModel.RemoveData(run.store, d.id), run.effects + [Sent(RejectInteraction(d.id))]);
        }
        RejectUnlessObsolete(d);
        i := i + 1;
      }
      assert pending[..i] == pending;
    }
  }
}
