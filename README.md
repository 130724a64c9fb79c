# touchify gesture engine — a Dafny model

touchify turns mouse, pointer and touch events into gesture callbacks on
registered page elements. It keeps two module-level tables:

- `bindings`: each entry is a registered element with the handlers that were registered for it;
- `actions`: each entry is one live contact (a finger, or the mouse), with its displacement bookkeeping.

This project models, as imperative Dafny over those two tables:

- the action resolver `getAction`: identifier defaulting, `trigger`, hover/leave tracking, reuse, implicit stop, and creation with `select`/`outer` and two-contact pairing;
- the per-contact callbacks of the six entry points;
- the batch normaliser `eventHelper`;
- the registry operations `bind`, its destructor, and `unbind`.

Files:

- `seq_ops.dfy` (module `SeqOps`): JavaScript `indexOf` and `splice(start, 1)` on sequences, and `Without`, the removal the code intends when it combines them.
- `touch_types.dfy` (module `TouchTypes`): the values.
  - Handler capabilities, selection tokens, identifiers, contact records, and the handler calls made.
  - Hover tracking as a function, and an enter/leave protocol it is proved to follow over any stream of records.
- `engine.dfy` (module `Engine`): the classes.
  - `Binding`: an element, its handlers, and `_last_hover`.
  - `Action`: one contact record, updated in place.
  - `Destructor`: the function `bind` returns.
  - `Touchify`: the library closure, holding both tables and every operation on them.

User handlers are opaque:

- A binding records which handlers it has.
- What a handler returns travels with the contact record it is called for: `selectReply`, `startReply`, and `reply` for whichever boolean handler the entry point calls.
- Every operation returns the handler calls it makes, in order, as a `seq<Call>`.
- `select` is assumed to reply with the same token each time it is called for one record.

`Touchify.Valid()` is kept by every operation. It states:

- identifiers are unique among live actions;
- pair links are symmetric and join a first and a second action, and they stay so after a partner is removed (links are never cleared, as the source's own TODO list notes);
- every live action has `diff == last - start`, with `|diff|` bounded by the travelled totals.

The ghost set `Known` holds every action ever created, so that this holds for removed partners too.

What a callback reports is stated against a `Snapshot`: the tables and the
fields of every known action in the state the callback runs in. The
functions `StartResult`, `MoveResult`, `WheelPrevents` and `OverPrevents`
give each entry point's outcome from a snapshot and the record.
The predicate `Transition` states, per entry point, what one run of a
callback does to the tables and to the fields of every known action.
`eventHelper` keeps, for every record, the state it ran in, the state it
left and the outcome its callback reported, so that the states chain from
the state on entry to the state on exit.

Where the code and the library's documented intent differ, the model follows the code, with one exception:

- A paired move with `scale` registered is not always handled. When the two contacts coincide, or on the sample that records the pinch baseline, the callback returns `undefined`. `rotate` is then not called either.
- The identifier 0 of a touch collapses to null, the identifier mouse events use.
- The exception is the destructor `bind` returns. `Engine.Destructor.Run` is the corrected destructor, which the rest of the model uses. The code as written (touchify.js:337) is `Engine.DestroyAsWritten`, and `Engine.DestroyAsWrittenDropsOther` shows that it removes the last binding when its own binding is no longer registered. See "## Findings".

## Model

| member | source | states |
|---|---|---|
| Engine.FirstBinding | touchify.js:33-38 | The binding found is registered for the element; no binding exists exactly when no entry has that element. |
| Engine.FirstBindingIsFirst | touchify.js:33-38 | The binding found is the first one for the element: no entry before it has that element. |
| Engine.Touchify.FindBinding | touchify.js:33-38 | The index loop returns the first binding registered for the element, or null. |
| SeqOps.IndexOf | touchify.js:44 | `indexOf` gives the first position of the element, and -1 exactly when it is absent. |
| SeqOps.SpliceOne | touchify.js:44 | `splice(start, 1)` removes the element at an in-range start; a start of -1 removes the last element; the length drops by one unless the array is empty or the start is past the end. |
| SeqOps.Without | touchify.js:43-45 | The intended removal: nothing changes when the element is absent; otherwise exactly one occurrence is removed (the multiset loses one copy). |
| SeqOps.SpliceIndexOfPresent | touchify.js:43-45 | For an element that is present, `splice(indexOf(x), 1)` is exactly the intended removal. |
| SeqOps.WithoutKeepsOthers | touchify.js:43-45 | Removing one element keeps every other element. |
| SeqOps.WithoutSubset | touchify.js:43-45 | Removal adds no element. |
| Engine.Touchify.RemoveAction | touchify.js:43-45 | Given an action in the table (the precondition `indexOf` needs), exactly that action is removed and the engine invariant is kept. |
| TouchTypes.ResolveIdentifier | touchify.js:55 | An explicit identifier wins. Otherwise a non-zero record identifier is used, and 0 (touch id 0 included) becomes null. |
| TouchTypes.HoverStep | touchify.js:73-80 | Only with `select`, `hover` and `leave` all registered is `select` called and `_last_hover` replaced. `leave` is called on the old token iff the selection changed and the old token was truthy; `hover` on the new one iff it changed and the new one is truthy. |
| TouchTypes.HoverStepFollowsProtocol | touchify.js:73-80 | One tracking step never leaves a token that is not entered and never enters twice; afterwards the remembered token is the entered one. |
| TouchTypes.HoverTraceFollowsProtocol | touchify.js:73-80 | Over any stream of records, the hover/leave calls of one binding alternate correctly and end with `_last_hover` entered. |
| TouchTypes.ReplayAppend | touchify.js:73-80 | Checking the protocol on two call sequences in turn is checking it on their concatenation. |
| TouchTypes.HoverStepIdempotent | touchify.js:75 | Selecting the same token again calls neither `hover` nor `leave` and keeps `_last_hover`. |
| Engine.Touchify.Prelude | touchify.js:61-80 | On the element's binding, if there is one: `trigger` fires first when registered, and `_last_hover` becomes the hover step's token. No other binding changes; without a binding nothing is called. |
| Engine.FirstWithIdent | touchify.js:82-89 | The action found has the identifier; none is found exactly when no live action has it. |
| Engine.FirstWithIdentIsFirst | touchify.js:82-89 | The action found is the first live action with the identifier: none before it has that identifier. |
| Engine.Touchify.FindAction | touchify.js:82-89 | The scan by identifier returns the first live action with that identifier. |
| Engine.FirstWithIdentFinds | touchify.js:82-89 | With unique identifiers, the scan by identifier finds every live action. |
| Engine.WithoutKeepsUnique | touchify.js:43-45 | Removing an action keeps identifiers unique. |
| Engine.RemoveAtKeepsUnique | touchify.js:43-45 | Splicing out any one position keeps identifiers unique. |
| Engine.AppendKeepsUnique | touchify.js:104-150 | Creation appends an action only when its identifier is unused, so identifiers stay unique. |
| Engine.FirstPartner | touchify.js:115-120 | The partner found has the same element and selection; none is found exactly when no live action matches. |
| Engine.FirstPartnerIsFirst | touchify.js:115-120 | The partner found is the first live action on the element with the selection: none before it matches. |
| Engine.Touchify.FindPartner | touchify.js:115-120 | The pairing scan returns the first live action on the same element with the same selection. |
| Engine.Action.constructor | touchify.js:124-142 | A new action is active, unpaired and at rest: start and last are the client position, totals, diffs, deltas and wheel are 0, and `userData` is null. |
| Engine.Touchify.Insert | touchify.js:115-151 | Creation is refused, changing nothing, when the candidate partner is already paired. Otherwise exactly one fresh action is appended, at rest at the contact, and linked both ways with an unpaired partner (the new one second). |
| Engine.Touchify.Push | touchify.js:150 | An unpaired action whose identifier is unused is appended, and the invariant is kept. |
| Engine.Touchify.Link | touchify.js:144-148 | A new action and its unpaired partner are linked both ways, the new one second, and the invariant is kept. |
| Engine.Touchify.Create | touchify.js:103-151 | `select` is called when registered; a falsy selection calls `outer` when registered and creates nothing. Otherwise the action is inserted. |
| Engine.Touchify.Drop | touchify.js:91-95 | `leave` is called on a selected action that has the handler, and the action is removed. |
| Engine.Touchify.Refresh | touchify.js:97-101 | Reuse changes only the action's layer coordinates. |
| Engine.Touchify.Resolve | touchify.js:82-151 | An action with the identifier is dropped when its binding differs and stopping is allowed (null), and reused otherwise. Without one there is no creation when the binding is absent or creation is not allowed (nothing changes); otherwise the creation path runs. |
| Engine.Touchify.GetAction | touchify.js:54-152 | The whole resolver: hover tracking on the element's binding and no other, then the drop, reuse, no-create or create outcome, each with the exact table and action changes. Its calls are `ResolveCalls` over the tables on entry: the prelude, then the stop calls or the creation calls. |
| Engine.Touchify.StartResolve | touchify.js:54-152 | `getAction(e, true, false)`: an action with the identifier is reused with fresh layer coordinates. Otherwise a created action is fresh, appended, at rest at the contact and linked to the first candidate partner, whose only change is that link. No other action changes. |
| Engine.Touchify.StartContact | touchify.js:177-185 | True iff an action is reused, or created: a binding exists, `select` does not miss, and the first candidate partner, if any, is unpaired. A created action carries the record's identifier, the binding, its selection and the start position, at rest. `start` is called and its reply stored as `userData`; a second action copies it onto its partner. No other action changes. |
| Engine.Touchify.StartStep | touchify.js:180-182 | Without an action nothing changes. Otherwise `start` is called and its reply stored, the partner receives the `userData` of a second action, and no other action changes. |
| Engine.Touchify.StartAction | touchify.js:181-182 | `start` is called when registered and its reply stored; the second of a pair copies its value onto the first, never the reverse. |
| Engine.Touchify.StartCallback | touchify.js:178-184 | The callback returns true exactly as `StartResult` says of the state it runs in (an action with the identifier exists, or one can be created), and leaves the state `Transition` gives for `onStart`: the resolver's reuse or creation, then the `start` reply stored. Its calls begin with the resolver's calls. |
| Engine.Action.MoveTo | touchify.js:191-198 | One sample's accounting: `dx`/`dy` are the deltas from `last`, the totals grow by their absolute values, `last` is the client position and `diff = last - start`. The bound of `diff` by the totals is kept. |
| Engine.Touchify.Lookup | touchify.js:54-101 | `getAction(e, false, false)`: the first live action with the identifier, with its layer coordinates refreshed and nothing else changed; no action is created or removed. |
| Engine.Touchify.MoveContact | touchify.js:186-263 | Handled exactly as `MoveHandled` says of the action's state after the refresh. No action, or an inactive one: nothing is called and only the layer coordinates change. An active action's fields become `Accounted` of its refreshed fields; besides its displacement, only `active` and (when it is the second of a pair) `distanceSeeded` change: the first of a pair keeps its own `distanceSeeded`, and a partner changes only `distanceSeeded`. A paired action takes the pinch/rotate branch; an unpaired one is classified: `move2`, else `try_move` when `totalY > totalX`, else `move`, each with its handled flag and `active` update. |
| Engine.Touchify.MoveStep | touchify.js:189-260 | Nothing happens without a live active action. Otherwise the action's fields become `Accounted` of its old ones except `active` and `distanceSeeded`; the first of the pair, and an unpaired action, keep their `distanceSeeded`; no action other than it and its partner changes; and the outcome is the classification of `MoveAction`. |
| Engine.Touchify.MoveAction | touchify.js:191-260 | On an active action, handled exactly as `MoveHandled` says of the state before the sample. Its fields become `Accounted` of the old ones, except `active` and `distanceSeeded`; only the second of a pair records the baseline (`b.distance`), so an unpaired action and the first of a pair keep their own `distanceSeeded`, and the partner changes only `distanceSeeded`. Then the paired branch, or the three-way classification with its handled and deactivation rules. |
| Engine.Touchify.Classify | touchify.js:241-260 | `move2` when registered (a truthy reply ends the action, a falsy one is handled); else `try_move` when `totalY > totalX` (a truthy reply is handled, otherwise the action ends); else `move` (a truthy reply ends the action) and the move is handled. |
| Engine.Touchify.Account | touchify.js:191-198 | The action's fields become `Accounted` of its old ones: `dx`/`dy` are the client deltas; totals grow by their absolute values and never decrease; `last` is the client position; `diff = last - start`. |
| Engine.Touchify.PairedMove | touchify.js:201-239 | The pair is ordered first/second. With `scale`, coinciding contacts or an unrecorded baseline end unhandled (the first non-zero sample records the baseline). Otherwise `scale` and then `rotate` are called, as registered, and the move is handled. |
| Engine.Touchify.MoveCallback | touchify.js:187-262 | The callback returns true exactly as `MoveResult` says of the state it runs in (only for a live active action, as `MoveHandled` decides), and leaves the state `Transition` gives for `onMove`: the refresh, then the accounting of an active action and its pair's baseline. |
| TouchTypes.Contacts | touchify.js:161-168 | There is always at least one record: the changed touches, in order, or the event itself when there are none. |
| TouchTypes.WheelDelta | touchify.js:269 | `wheelDelta` wins when it is non-zero; otherwise `-detail`, whose sign is the opposite of `detail`'s; the amount is 0 only when both are 0. |
| TouchTypes.ClampWheel | touchify.js:269 | The wheel value is in -1..1 and has the sign of the delta (0 exactly for 0). |
| Engine.Touchify.WheelContact | touchify.js:264-276 | Prevented exactly when the action is live and active, `wheel` is registered and replies falsy. The action's layer coordinates are refreshed and, only when it is active, its wheel becomes the clamped direction; nothing else changes. |
| Engine.Touchify.WheelAction | touchify.js:269-274 | The wheel is the clamped direction; `wheel` is called when registered, and a falsy reply prevents default handling. |
| Engine.Touchify.WheelCallback | touchify.js:265-275 | The callback prevents the default exactly as `WheelPrevents` says of the state it runs in, and leaves the state `Transition` gives for `onWheel`: the refresh, and the clamped wheel on an active action. |
| Engine.Touchify.OverContact | touchify.js:278-290 | The action keyed 'mouseover' is dropped if its element was left. Otherwise its layer coordinates are refreshed and `hover` is called on it (a falsy reply prevents default), or it is removed when there is no `hover`. |
| Engine.Touchify.OverCallback | touchify.js:279-289 | The callback prevents the default exactly as `OverPrevents` says of the state it runs in, and leaves the state `Transition` gives for `onOver`: the 'mouseover' action dropped, refreshed, or removed. |
| Engine.Touchify.CancelCallback | touchify.js:292-299 | The callback changes neither the registry nor the known set, and leaves the state `Transition` gives for `onCancel`: the resolved action is removed, and first refreshed and deactivated when it is on the element's binding; nothing else changes. Its calls begin with the resolver's calls. |
| Engine.Touchify.CancelContact | touchify.js:291-300 | A resolved action gets fresh layer coordinates and is deactivated, `cancel` and `finally` are called as registered, and it is removed from the table. No other action changes. |
| Engine.Touchify.CancelAction | touchify.js:295-298 | Deactivation, `cancel` then `finally`, and removal of exactly that action. |
| Engine.Touchify.EndContact | touchify.js:301-314 | The resolved action gets fresh layer coordinates and is always removed. Only if it was active: `click` (when both totals are under 10), then `end`, then `finally`. |
| Engine.Touchify.EndAction | touchify.js:304-312 | The end calls are made and exactly that action is removed; a `click` implies that the last recorded position is within 10 pixels of the start on each axis. |
| Engine.Touchify.EndCallback | touchify.js:302-313 | The callback changes neither the registry nor the known set, and leaves the state `Transition` gives for `onEnd`: the resolved action is removed, and first refreshed when it is on the element's binding; nothing else changes. Its calls begin with the resolver's calls. |
| Engine.EndCallsClick | touchify.js:305-311 | Nothing is called for an inactive action. `click` is called iff the action is active, both totals are under 10 and it is registered; `end` comes before `finally`. A click implies that the last position recorded by `onMove` is within 10 pixels of the start on each axis. |
| Engine.ReportedAt | touchify.js:159-170 | Each record runs in a complete state and leaves the next one as its entry's transition says; its reported outcome is its entry's outcome in the state it ran in. |
| Engine.ReportedExtend | touchify.js:161-164 | A run on one more record that makes its entry's transition from the last state extends the report by the state it leaves and its outcome. |
| Engine.ReportedAny | touchify.js:159-170 | Every record's run is its entry's transition from the state it ran in to the next; some run is reported truthy (or as preventing) exactly when some record's outcome, in the state it ran in, is truthy (or preventing). |
| Engine.Touchify.Record | touchify.js:162-164 | One run of the callback: the report grows by the state the run leaves, which is the current state, and by its outcome, and it keeps its first state. |
| Engine.Touchify.EventHelper | touchify.js:159-170 | The records are processed in order: the first runs in the state on entry, each later one in the state the previous run left, each run makes its entry's transition, and the last state is the state on exit. The result is true iff some run returned truthy; `prevented` is true iff some run prevented the default itself. |
| Engine.Touchify.Callback | touchify.js:177-314 | For every entry point, a record's callback reports `Result` and `Prevents` of its entry in the state it runs in and makes its entry's `Transition`. Its calls begin with the resolver's calls. Hover tracking touches only the element's binding. |
| Engine.Touchify.Handle | touchify.js:177-314 | The states chain from the state on entry to the state on exit, each record making its entry's transition. `onStart`/`onMove` prevent default iff some record's callback returns truthy in the state it ran in; `onWheel`/`onOver` iff some callback prevented it itself; `onCancel`/`onEnd` never. A pointer event alone is decided by its callback in the state on entry. |
| Engine.Touchify.Bind | touchify.js:329-334 | A fresh binding with the element and handlers is appended after all existing ones; the destructor holds it. |
| Engine.Destructor.Run | touchify.js:335-340 | The first run removes the destructor's binding, and only it, if still registered; later runs change nothing. |
| Engine.Touchify.BindThenDestroy | touchify.js:329-340 | Binding and then destroying leaves the registry exactly as it was. |
| SeqOps.WithoutAppended | touchify.js:334-337 | Removing an element just appended (and not present before) restores the original sequence. |
| Engine.Touchify.Unbind | touchify.js:346-355 | True iff some binding has the element; then exactly the first such binding is removed, otherwise nothing changes. |
| SeqOps.IndexOfFirst | touchify.js:348-350 | A position holding the element with no earlier occurrence is what `indexOf` returns. |
| Engine.DestroyAsWrittenDropsOther | touchify.js:335-340 | As written, a destructor whose binding is no longer registered (for example after `unbind`) removes the last registered binding of any non-empty registry, whichever element it belongs to. |
| Engine.Touchify.constructor | touchify.js:25-26 | The library starts with empty tables. |
| Engine.Binding.constructor | touchify.js:330-333 | A new binding has its element, its handlers, and no hovered token. |

## Left out

- DOM subscription (`bind_events` and the listener registrations): platform wiring. `Touchify.Handle` takes the entry point as a parameter instead.
- Browser geometry (`offsetX`/`getBoundingClientRect`): `layerX`/`layerY` are inputs carried by each contact record.
- The floating-point pinch and rotate values (`distance`, `scale`, `ds`, `ld`, the angle, `la`, `ad`): only their control flow is modelled. Recording `b.distance` is the boolean `distanceSeeded`. Whether the two contacts are at distance 0 is whether their last positions coincide.
- The bodies of user handlers, and anything they do to the tables while they run: they are opaque, and their replies are inputs. Their second argument (the raw event) is not recorded in the call trace.
- `preventDefault` itself: only the boolean that decides it.
- JavaScript value semantics: every falsy selection or `userData` is one value, coordinates are integers, and loose `!=` between tokens is equality on the collapsed values.
- Engine.Touchify.OverContact: no action is ever created under the identifier 'mouseover', so its `hover` branch is unreachable from the other operations. The model keeps the branch as written but proves nothing about reaching it.
- Engine.Touchify.EndContact: `onEnd` never reads the end record's client coordinates, so the click bound is on the last position recorded by `onMove`, stated on `EndCallsClick` and `EndAction` and not repeated here.
- Engine.Touchify.EventHelper: the calls of the whole batch are not stated; each run's calls begin with the resolver's calls (`Callback`).

## Findings

| source | as written | input that shows it | evidently intended | confidence | as-written member | corrected member |
|---|---|---|---|---|---|---|
| touchify.js:335-340 | The destructor returned by `bind` splices at `bindings.indexOf(binding)` without checking the result. | `d = bind(x, h)`, then `bind(y, h')`, then `unbind(x)`, then `d()`. Here `indexOf` is -1 and `splice(-1, 1)` removes `y`'s binding. | A destructor whose binding is no longer registered removes nothing. | not executed | Engine.DestroyAsWrittenDropsOther | Engine.Destructor.Run |
