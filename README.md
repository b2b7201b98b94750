# Interaction store and keyring request checks

This project models two parts of a browser-extension wallet that sit on the
boundary between the untrusted UI and the privileged background process.

**The interaction store** (`InteractionStore`, packages/stores/src/core/interaction/interaction.ts)
keeps three collections:

- the requests waiting for the user (`data`);
- a separate map of obsolete flags (`obsoleteData`);
- the events the background broadcasts (`events`).

Three flows resolve a request:

- `approveWithProceedNext`
- `approveWithProceedNextV2`
- `rejectWithProceedNext`

Each flow gives up when the request is missing or already obsolete. Otherwise it:

1. marks the request obsolete;
2. sends one approve or reject message to the background;
3. calls `afterFn` with whether other requests are pending;
4. removes the request.

`rejectAll(type)` rejects every request of one type that is not obsolete.

The obsolete flag is the mutual exclusion between these flows. The model proves:

- the flag is set before the message is sent;
- every later flow on the same id sends nothing and changes nothing;
- `rejectAll` leaves an obsolete request in place.

One consequence of the code is also proved: the guard does not cover the empty id. `isObsoleteInteraction("")` is always false, so while an approval of a request with id `""` waits for its end event, a rejection of the same request still goes out (`InteractionModel.EmptyIdIsNotExcluded`). Request ids are created by the background process, which this model does not include, so this is recorded as a property of the code, not as a defect.

**The keyring request checks** (packages/background/src/keyring-v2/messages.ts) are the structural `validateBasic()` of the twelve keyring messages, their `type()` tags and their `route()`.

- Each check is a fixed sequence of guards on required fields.
- One special case: a mnemonic whose only fault is its checksum is accepted.

The project has four modules:

- `Options` and `ArrayMethods` (array_methods.dfy): an `Option` type, and `find`/`filter` on sequences with their contracts.
- `InteractionModel` (interaction_model.dfy): the store's state as a value `Store`. Every read and every update of the store is a function on it. Each flow is a function returning the new store and the effects, in order: messages sent and `afterFn` calls. The lemmas state what these functions do. The main ones are the invariant that every obsolete flag belongs to a pending request, and the closed form of the `rejectAll` loop.
- `Interaction` (interaction.dfy): the class `InteractionStore`. Its fields `data`, `obsoleteData` and `events` are updated in place, and a ghost `log` records the effects. Every method requires and keeps the flag invariant `Valid()`. Each method is proved to leave the fields equal to a model function of the old state, and to append to `log` exactly that function's effects:
  - `OnInteractionDataReceived` follows `Receive`;
  - `OnEventDataReceived` follows `ReceiveEvent`;
  - `MarkAsObsolete` and `RemoveData` follow the model functions of the same name;
  - `ApproveWithProceedNext`, `RejectWithProceedNext` and their shared body `ResolveWithProceedNext` follow `ResolveWithProceedNext`;
  - `ApproveWithProceedNextV2` follows the model function of the same name;
  - `RejectUnlessObsolete`, one turn of the `rejectAll` loop, follows `RemoveData` plus one rejection, or changes nothing;
  - `RejectAll` follows the model function of the same name. It is a loop over the snapshot, and its invariant is the model function applied to the prefix done so far.
- `KeyRingMessages` (keyring_messages.dfy): the messages as one datatype; `ValidateBasic`, `Type` and `Route`. `bip39.mnemonicToEntropy` is a parameter of `ValidateBasic`, saying for each phrase whether it decodes or which error it throws.

Three details of the code that the model follows:

- `validateBasic` of the key-creating messages does not check the BIP-44 path.
- `FinalizeMnemonicKeyCoinTypeMsg` does not check `coinType`.
- `approveWithProceedNextV2` waits for the end event without a bound.

## Model

Source paths are relative to the repository root.

| member | source | states |
|---|---|---|
| InteractionModel.GetAllDataSpec | packages/stores/src/core/interaction/interaction.ts:41-47 | `getAllData(type)` returns exactly the pending requests of that type, each as often as it is pending, in their original order (a subsequence of `data`) |
| InteractionModel.GetDataSpec | packages/stores/src/core/interaction/interaction.ts:49-53 | `getData(id)` returns nothing exactly when no request with that id is pending, and otherwise the first request with that id |
| InteractionModel.IsObsoleteInteraction | packages/stores/src/core/interaction/interaction.ts:210-216 | false for an undefined or empty id and for an id without a flag; otherwise the stored flag |
| InteractionModel.HasOtherDataSpec | packages/stores/src/core/interaction/interaction.ts:231-236 | `hasOtherData(id)` is true exactly when some pending request has a different id |
| InteractionModel.WaitInteractionEndSpec | packages/stores/src/core/interaction/interaction.ts:130-158 | `waitInteractionEnd(id)` returns at once exactly when an event of type "interaction-ends" whose payload has this id has been received |
| InteractionModel.ReceiveThenGetAllData | packages/stores/src/core/interaction/interaction.ts:55-58 | a received request is appended after the requests of its own type and changes no other type's list |
| InteractionModel.ReceiveThenGetData | packages/stores/src/core/interaction/interaction.ts:55-58 | after a request is received, `getData` finds it unless an earlier request has the same id, and finds the same request as before for every other id |
| InteractionModel.ReceiveKeepsFlagsTracked | packages/stores/src/core/interaction/interaction.ts:55-58 | receiving a request keeps every obsolete flag attached to a pending request |
| InteractionModel.ReceiveFreshIsResolvable | packages/stores/src/core/interaction/interaction.ts:55-58 | since a flag is deleted together with its requests, a request received under an id with nothing pending can be approved or rejected: no stale flag shuts it out |
| InteractionModel.ReceiveEventThenWait | packages/stores/src/core/interaction/interaction.ts:60-65 | after an event is received, `waitInteractionEnd(id)` returns at once exactly when it did before or the new event ends `id` |
| InteractionModel.ReceiveEventKeepsRequests | packages/stores/src/core/interaction/interaction.ts:60-65 | an event changes neither what `getData` nor what `isObsoleteInteraction` answers, and keeps the flag invariant |
| InteractionModel.MarkAsObsoleteSpec | packages/stores/src/core/interaction/interaction.ts:224-229 | `markAsObsolete(id)` sets the flag to true exactly when a request with this id is pending, otherwise changes nothing, and never touches `data` or `events` |
| InteractionModel.MarkAsObsoleteKeepsFlagsTracked | packages/stores/src/core/interaction/interaction.ts:224-229 | `markAsObsolete` only flags a pending id, so every flag stays attached to a pending request |
| InteractionModel.RemoveDataSpec | packages/stores/src/core/interaction/interaction.ts:218-222 | `removeData(id)` drops every request with that id and no other, deletes the flag of that id and no other, and leaves the events alone |
| InteractionModel.RemoveDataKeepsOrder | packages/stores/src/core/interaction/interaction.ts:218-222 | the requests kept by `removeData` stay in their order |
| InteractionModel.KeepUnlessSpec | packages/stores/src/core/interaction/interaction.ts:220 | the filter of `removeData` keeps each request whose id is not removed as often as it occurs, and nothing else |
| InteractionModel.RemoveDataKeepsFlagsTracked | packages/stores/src/core/interaction/interaction.ts:218-222 | `removeData` deletes the flag together with the requests, so every flag stays attached to a pending request |
| InteractionModel.BeginResolveSpec | packages/stores/src/core/interaction/interaction.ts:83-92 | a flow that passes its guard marks the request obsolete before its only send; while it is suspended after the send, no flow on that non-empty id passes the guard. A flow that fails the guard sends nothing and changes nothing |
| InteractionModel.ResolveWithProceedNextSpec | packages/stores/src/core/interaction/interaction.ts:77-96 | approve or reject on a resolvable id sends its message, then calls `afterFn` with whether a request with another id was pending before the removal, then leaves exactly the store `removeData(id)` leaves. That store lacks the request and its flag, keeps the other requests in order and changes nothing else. On any other id it does nothing. Afterwards the id cannot be resolved again |
| InteractionModel.ApproveWithProceedNextV2Spec | packages/stores/src/core/interaction/interaction.ts:108-128 | with the end event already received, V2 does exactly what `approveWithProceedNext` does; without it, the store it leaves is the one after the mark and the send: the request is pending and obsolete, and nothing else changes. A non-empty id cannot be resolved again |
| InteractionModel.ResolveKeepsFlagsTracked | packages/stores/src/core/interaction/interaction.ts:83-95 | all three resolve flows, suspended or finished, keep every flag attached to a pending request |
| InteractionModel.ResolveIsAtMostOnce | packages/stores/src/core/interaction/interaction.ts:83-86 | after a resolve flow on an id has run, any later approve, V2 approve or reject on that id sends nothing and changes nothing |
| InteractionModel.ObsoleteExcludesOtherFlows | packages/stores/src/core/interaction/interaction.ts:114-119 | while a flow on a non-empty id is suspended after its send, every other flow on that id is a no-op and `rejectAll` keeps that request |
| InteractionModel.EmptyIdIsNotExcluded | packages/stores/src/core/interaction/interaction.ts:210-214 | for the empty id the guard does not exclude a second flow: a V2 approval is pending and a rejection of the same request is still sent |
| InteractionModel.RejectAllFromClosedForm | packages/stores/src/core/interaction/interaction.ts:195-208 | the loop of `rejectAll` sends one rejection for each request of the snapshot whose id was not obsolete when the loop started, in order. It removes exactly those ids and their flags |
| InteractionModel.RejectAllFromKeepsFlags | packages/stores/src/core/interaction/interaction.ts:199-206 | during `rejectAll` the answers of `isObsoleteInteraction` never change, so what is skipped depends only on the starting state |
| InteractionModel.RejectAllFromKeepsFlagsTracked | packages/stores/src/core/interaction/interaction.ts:195-208 | `rejectAll` keeps every flag attached to a pending request |
| InteractionModel.ToReject | packages/stores/src/core/interaction/interaction.ts:195-201 | the requests `rejectAll(type)` rejects are exactly the pending ones of that type whose id is not obsolete, with their multiplicity and in the order of `data` |
| InteractionModel.RejectAllSends | packages/stores/src/core/interaction/interaction.ts:202-205 | `rejectAll(type)` sends one reject message per request it rejects, in the order of `data` |
| InteractionModel.RejectAllKeepsObsoleteRequests | packages/stores/src/core/interaction/interaction.ts:199-201 | every obsolete request is still pending after `rejectAll` |
| InteractionModel.RejectAllRemovesRejected | packages/stores/src/core/interaction/interaction.ts:202-206 | after `rejectAll(type)`, no request is left with the id of a non-obsolete request of that type |
| InteractionModel.RejectAllWithNothingToReject | packages/stores/src/core/interaction/interaction.ts:195-208 | with no non-obsolete request of that type, including none at all, `rejectAll` sends nothing and the store is unchanged |
| Interaction.InteractionStore.constructor | packages/stores/src/core/interaction/interaction.ts:18-29 | the store starts with no request, no flag and no event, and nothing sent |
| Interaction.InteractionStore.OnInteractionDataReceived | packages/stores/src/core/interaction/interaction.ts:55-58 | appends the request at the end of `data`; the flags, the events and the log are unchanged; a request whose id had nothing pending can then be resolved |
| Interaction.InteractionStore.OnEventDataReceived | packages/stores/src/core/interaction/interaction.ts:60-65 | appends the event at the end of `events`; the requests, the flags and the log are unchanged |
| Interaction.InteractionStore.MarkAsObsolete | packages/stores/src/core/interaction/interaction.ts:224-229 | the new state is `InteractionModel.MarkAsObsolete` of the old one; nothing is sent and the flag invariant is kept |
| Interaction.InteractionStore.RemoveData | packages/stores/src/core/interaction/interaction.ts:218-222 | the new state is `InteractionModel.RemoveData` of the old one; nothing is sent and the flag invariant is kept |
| Interaction.InteractionStore.ResolveWithProceedNext | packages/stores/src/core/interaction/interaction.ts:83-95 | the shared body of the two non-V2 flows: the new state and the appended effects are those of `InteractionModel.ResolveWithProceedNext` |
| Interaction.InteractionStore.ApproveWithProceedNext | packages/stores/src/core/interaction/interaction.ts:77-96 | the new state and the sent approve message and `afterFn` call are those of the model flow |
| Interaction.InteractionStore.RejectWithProceedNext | packages/stores/src/core/interaction/interaction.ts:169-187 | the new state and the sent reject message and `afterFn` call are those of the model flow |
| Interaction.InteractionStore.ApproveWithProceedNextV2 | packages/stores/src/core/interaction/interaction.ts:108-128 | the new state and the effects are those of `InteractionModel.ApproveWithProceedNextV2` |
| Interaction.InteractionStore.RejectUnlessObsolete | packages/stores/src/core/interaction/interaction.ts:199-206 | one turn of the loop: an obsolete id changes nothing, any other is rejected and removed; the flag invariant is kept |
| Interaction.InteractionStore.RejectAll | packages/stores/src/core/interaction/interaction.ts:195-208 | the loop leaves the state and the log as `InteractionModel.RejectAll` gives them, and keeps the flag invariant |
| KeyRingMessages.Type | packages/background/src/keyring-v2/messages.ts:27-29 | every message's `type()` is the static `type()` of its own class (the same for the other eleven classes) |
| KeyRingMessages.Route | packages/background/src/keyring-v2/messages.ts:23-25 | every message's `route()` is `ROUTE` |
| KeyRingMessages.StaticTypesAreDistinct | packages/background/src/keyring-v2/messages.ts:11-13 | the twelve static tags, from "get-keyring-status" to "ChangeUserPasswordMsg", are pairwise distinct |
| KeyRingMessages.RouteAndTypeIdentifyClass | packages/background/src/keyring-v2/messages.ts:23-29 | two messages have the same route and type exactly when they belong to the same class |
| KeyRingMessages.FirstUnsetSpec | packages/background/src/keyring-v2/messages.ts:161-173 | the first unset field of a guard list is absent exactly when every field is set, and is an unset field of the list |
| KeyRingMessages.ValidateBasicSpec | packages/background/src/keyring-v2/messages.ts:112-131 | for every message, `validateBasic()` throws the error of the first required field, in source order, that is not set. When every field is set it rethrows a decoding error of a new mnemonic key that is not the checksum error. Otherwise it returns |
| KeyRingMessages.ValidateBasicPasses | packages/background/src/keyring-v2/messages.ts:112-131 | `validateBasic()` returns exactly when every required field is set and a new mnemonic decodes or fails only its checksum |
| KeyRingMessages.NoFieldMessagesPass | packages/background/src/keyring-v2/messages.ts:19-21 | `GetKeyRingStatusMsg`, and likewise `LockKeyRingMsg` (234-236), never fail |
| KeyRingMessages.OneFieldMessages | packages/background/src/keyring-v2/messages.ts:44-48 | `SelectKeyRingMsg` fails exactly when `vaultId` is empty; `UnlockKeyRingMsg` (258-262) exactly when `password` is empty |
| KeyRingMessages.FinalizeCoinTypeChecks | packages/background/src/keyring-v2/messages.ts:75-83 | fails exactly when `id` or `chainId` is empty, reports `id` first, and does not depend on `coinType` |
| KeyRingMessages.NewMnemonicKeyChecks | packages/background/src/keyring-v2/messages.ts:112-131 | fails on an empty mnemonic, then on an empty name. With both set it passes exactly when the phrase decodes or fails only its checksum. It depends on neither the path nor the optional password |
| KeyRingMessages.MnemonicErrorsRethrown | packages/background/src/keyring-v2/messages.ts:121-130 | the checksum error is tolerated; any other decoding error is rethrown with its own message |
| KeyRingMessages.NewLedgerKeyChecks | packages/background/src/keyring-v2/messages.ts:161-173 | an absent or empty public key fails first, then a missing app, then a missing name. It passes exactly when all three are present and does not depend on the password |
| KeyRingMessages.AppendLedgerKeyAppChecks | packages/background/src/keyring-v2/messages.ts:200-212 | an absent or empty public key fails first, then a missing app, then a missing vault id. It passes exactly when all three are present |
| KeyRingMessages.TwoFieldMessages | packages/background/src/keyring-v2/messages.ts:285-293 | `ChangeKeyRingNameMsg` and likewise `DeleteKeyRingMsg` (320-328), `ShowSensitiveKeyRingDataMsg` (351-359) and `ChangeUserPasswordMsg` (382-390) pass exactly when both fields are set. A missing first field is reported first |

## Left out

- MobX is not modelled: observability, the memoisation of `computedFn`, the copy made by `toJS`, and the `autorun` subscription in `waitInteractionEnd`. Reads are plain functions of the current state.
- The constructor's registration with the router (`interactionForegroundInit`) is not modelled: it is wiring to code outside this model.
- `delay` is a no-op: timers are not modelled.
- `msgRequester.sendMessage` is assumed to succeed: a send is an entry in the ghost log. A transport failure, which would end a flow after the mark with the request left pending and obsolete, is not modelled.
- `afterFn` is assumed to return normally: its call is an entry in the log with its boolean argument.
- Interleaving of flows at their `yield` points is left out. Each flow runs as one sequential method. The one interleaving modelled is a second flow started while the first is suspended after its send (`InteractionModel.BeginResolveSpec`, `InteractionModel.ObsoleteExcludesOtherFlows`). Flows that run during the delay before `hasOtherData`, or between the send and the removal in `rejectAll`, are not modelled.
- Interaction.InteractionStore.ApproveWithProceedNextV2: when the end event has not arrived yet, the method stops after the send, where the generator would stay suspended. The continuation that runs once the event arrives later is not modelled.
- The request payload is opaque (`Payload`), except for the `id` property read on events. A falsy event payload is `None`.
- `bip39.mnemonicToEntropy` is a foreign library call (wordlist, entropy and checksum decoding). It is a parameter of `ValidateBasic`.
- KeyRingMessages.Route: `ROUTE` is defined in keyring-v2/constants.ts, which is not part of this model. Its value is taken to be "keyring-v2".
- A string field is treated as unset only when it is empty; `undefined` or `null` arriving in place of a string is not modelled. `coinType` is an integer; floating point is not modelled.
- The `Message` base class from the router and the background handlers behind the keyring route are not part of this model.
