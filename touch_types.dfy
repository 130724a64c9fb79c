/**
 * Values that the gesture engine works with: the capability set a binding
 * registers, the contact records an input event is normalised into, selection
 * tokens, identifiers, and the handler invocations the engine performs.
 *
 * User handlers are opaque. A binding records WHICH handlers it has; what a
 * handler returns is supplied with the contact it is called for.
 */
module TouchTypes {

  /** An element of the page; only its identity matters. */
  type Element = int

  /** The handler names a binding may register. */
  datatype Cap =
    | Trigger | Select | Hover | Leave | Outer | Start | Move | TryMove | Move2
    | Scale | Rotate | Wheel | Click | End | Cancel | Finally

  type Handlers = set<Cap>

  /**
   * What `select` returns. Every falsy value (null, undefined, 0, "") is one
   * value here, since the engine only tests truthiness and compares tokens.
   */
  datatype Token = Falsy | Truthy(id: int)

  /** What `start` returns, kept on the action as `userData`. */
  datatype UserData = Null | Value(v: int)

  /**
   * The identifier an action is keyed by: null (a mouse or pointer event, or
   * a touch whose identifier is 0), a touch identifier, or the fixed string
   * 'mouseover' used by the hover entry point.
   */
  datatype Ident = NullId | ContactId(n: int) | MouseOver

  /**
   * One single-contact event record: a touch of `changedTouches`, or the
   * pointer/mouse event itself. `identifier` is 0 when the record has none.
   * `layerX`/`layerY` are the element-local coordinates (computed by the
   * browser). The last three fields are what the user handlers reply when
   * called for this record: `select`, `start`, and whichever one of `move`,
   * `try_move`, `move2`, `wheel` or `hover` the entry point calls.
   */
  datatype Contact = Contact(
    identifier: int,
    target: Element,
    layerX: int, layerY: int,
    clientX: int, clientY: int,
    wheelDelta: int, detail: int,
    selectReply: Token,
    startReply: UserData,
    reply: bool)

  /** A raw input event: a (possibly empty) batch of changed touches, or a single pointer. */
  datatype RawEvent = RawEvent(changedTouches: seq<Contact>, pointer: Contact)

  /** The argument a handler is called with. */
  datatype Arg =
    | OnEvent                 // the raw event only (`trigger`)
    | OnToken(token: Token)   // a selection token (`hover`/`leave` from hover tracking)
    | OnAction(id: Ident)     // an action, named by its identifier
    | AtPoint(x: int, y: int) // layer coordinates (`select`, `outer`)

  /** One handler invocation. */
  datatype Call = Invoke(cap: Cap, arg: Arg)

  function Abs(x: int): nat { if x < 0 then -x else x }

  /**
   * The identifier a contact is resolved to: a given one wins, otherwise the
   * record's own identifier if it is truthy, otherwise null. A touch with
   * identifier 0 therefore shares the null identifier with mouse events.
   */
  function ResolveIdentifier(given: Ident, raw: int): (id: Ident)
    ensures given != NullId ==> id == given
    ensures given == NullId ==> (id == NullId <==> raw == 0)
    ensures given == NullId && raw != 0 ==> id == ContactId(raw)
  {
    if given != NullId then given
    else if raw != 0 then ContactId(raw)
    else NullId
  }

  /** The single-contact records of a raw event, in the order the engine visits them. */
  function Contacts(ev: RawEvent): (cs: seq<Contact>)
    ensures |cs| >= 1
    ensures forall c :: c in ev.changedTouches ==> c in cs
    ensures ev.changedTouches == [] ==> cs == [ev.pointer]
    ensures ev.changedTouches != [] ==> cs == ev.changedTouches
  {
    if |ev.changedTouches| > 0 then ev.changedTouches else [ev.pointer]
  }

  /**
   * The wheel amount of a record: `wheelDelta` if it is non-zero, else
   * `-detail`, whose legacy sign is the opposite one.
   */
  function WheelDelta(c: Contact): (d: int)
    ensures c.wheelDelta != 0 ==> d == c.wheelDelta
    ensures c.wheelDelta == 0 ==> (d > 0 <==> c.detail < 0)
    ensures d == 0 <==> c.wheelDelta == 0 && c.detail == 0
  {
    if c.wheelDelta != 0 then c.wheelDelta else -c.detail
  }

  /** `Math.max(-1, Math.min(1, d))`: the wheel delta reduced to its direction. */
  function ClampWheel(d: int): (w: int)
    ensures -1 <= w <= 1
    ensures w == 0 <==> d == 0
    ensures w > 0 <==> d > 0
    ensures -1 <= d <= 1 ==> w == d
  {
    var m := if d < 1 then d else 1;
    if m > -1 then m else -1
  }

  /** Whether a binding takes part in hover tracking: it has `select`, `hover` and `leave`. */
  predicate TracksHover(h: Handlers)
  {
    Select in h && Hover in h && Leave in h
  }

  /**
   * Hover tracking for one record on one binding whose last hovered token is
   * `last`: the new last hovered token and the handler calls made.
   */
  function HoverStep(h: Handlers, last: Token, sel: Token, x: int, y: int): (r: (Token, seq<Call>))
    ensures r.0 == if TracksHover(h) then sel else last
    ensures !TracksHover(h) ==> r.1 == []
    ensures TracksHover(h) ==> |r.1| >= 1 && r.1[0] == Invoke(Select, AtPoint(x, y))
    ensures Invoke(Leave, OnToken(last)) in r.1 <==> TracksHover(h) && sel != last && last.Truthy?
    ensures Invoke(Hover, OnToken(sel)) in r.1 <==> TracksHover(h) && sel != last && sel.Truthy?
  {
    if !TracksHover(h) then (last, [])
    else
      var select := [Invoke(Select, AtPoint(x, y))];
      if sel == last then (last, select)
      else
        var leave := if last.Truthy? then [Invoke(Leave, OnToken(last))] else [];
        var hover := if sel.Truthy? then [Invoke(Hover, OnToken(sel))] else [];
        (sel, select + leave + hover)
  }

  /** The hover/leave calls made over a stream of records on one binding. */
  function HoverTrace(h: Handlers, last: Token, cs: seq<Contact>): seq<Call>
    decreases |cs|
  {
    if cs == [] then []
    else
      var step := HoverStep(h, last, cs[0].selectReply, cs[0].layerX, cs[0].layerY);
      step.1 + HoverTrace(h, step.0, cs[1..])
  }

  /** The last hovered token after a stream of records. */
  function HoverAfter(h: Handlers, last: Token, cs: seq<Contact>): Token
    decreases |cs|
  {
    if cs == [] then last
    else HoverAfter(h, HoverStep(h, last, cs[0].selectReply, cs[0].layerX, cs[0].layerY).0, cs[1..])
  }

  /** The state of an enter/leave protocol: the token currently entered, or a violation. */
  datatype Protocol = Broken | Hovering(current: Token)

  /**
   * Replays hover/leave calls against the protocol: `hover(t)` is allowed
   * only when nothing is entered and enters `t`; `leave(t)` is allowed only
   * on the entered token and enters nothing. Other calls are ignored.
   */
  function Replay(calls: seq<Call>, cur: Token): Protocol
    decreases |calls|
  {
    if calls == [] then Hovering(cur)
    else
      match calls[0]
      case Invoke(Leave, OnToken(t)) =>
        if t.Truthy? && t == cur then Replay(calls[1..], Falsy) else Broken
      case Invoke(Hover, OnToken(t)) =>
        if t.Truthy? && cur == Falsy then Replay(calls[1..], t) else Broken
      case _ => Replay(calls[1..], cur)
  }

  lemma {:induction false} ReplayAppend(a: seq<Call>, b: seq<Call>, cur: Token)
    ensures Replay(a + b, cur) == match Replay(a, cur) case Broken => Broken case Hovering(t) => Replay(b, t)
    decreases |a|
  {
    if a == [] {
      assert a + b == b;
    } else {
      assert (a + b)[0] == a[0];
      assert (a + b)[1..] == a[1..] + b;
      match a[0]
      case Invoke(Leave, OnToken(t)) =>
        if t.Truthy? && t == cur { ReplayAppend(a[1..], b, Falsy); }
      case Invoke(Hover, OnToken(t)) =>
        if t.Truthy? && cur == Falsy { ReplayAppend(a[1..], b, t); }
      case _ => ReplayAppend(a[1..], b, cur);
    }
  }

  /** One step of hover tracking keeps the protocol and ends with the new last hovered token entered. */
  lemma HoverStepFollowsProtocol(h: Handlers, last: Token, sel: Token, x: int, y: int)
    ensures Replay(HoverStep(h, last, sel, x, y).1, last) == Hovering(HoverStep(h, last, sel, x, y).0)
  {
    var calls := HoverStep(h, last, sel, x, y).1;
    if TracksHover(h) && sel != last {
      var select := [Invoke(Select, AtPoint(x, y))];
      var leave := if last.Truthy? then [Invoke(Leave, OnToken(last))] else [];
      var hover := if sel.Truthy? then [Invoke(Hover, OnToken(sel))] else [];
      assert calls == select + (leave + hover);
      ReplayAppend(select, leave + hover, last);
      ReplayAppend(leave, hover, last);
    }
  }

  /**
   * Over any stream of records, hover tracking never leaves a token it did
   * not hover, never hovers twice without a leave in between, and the token
   * it remembers is the one entered.
   */
  lemma {:induction false} HoverTraceFollowsProtocol(h: Handlers, last: Token, cs: seq<Contact>)
    ensures Replay(HoverTrace(h, last, cs), last) == Hovering(HoverAfter(h, last, cs))
    decreases |cs|
  {
    if cs != [] {
      var step := HoverStep(h, last, cs[0].selectReply, cs[0].layerX, cs[0].layerY);
      HoverStepFollowsProtocol(h, last, cs[0].selectReply, cs[0].layerX, cs[0].layerY);
      ReplayAppend(step.1, HoverTrace(h, step.0, cs[1..]), last);
      HoverTraceFollowsProtocol(h, step.0, cs[1..]);
    }
  }

  /** Hovering the same selection again calls neither `hover` nor `leave`. */
  lemma HoverStepIdempotent(h: Handlers, last: Token, sel: Token, x: int, y: int)
    ensures var again := HoverStep(h, HoverStep(h, last, sel, x, y).0, sel, x, y);
            again.0 == HoverStep(h, last, sel, x, y).0 &&
            forall c :: c in again.1 ==> c.cap != Hover && c.cap != Leave
  {
  }
}
