/**
 * The gesture engine: the registry of bindings, the table of live actions,
 * the action resolver, and the per-contact bodies of the six entry points.
 */
module Engine {
  import opened TouchTypes
  import opened SeqOps

  /** A registered element with its handlers and the token it last hovered (`_last_hover`). */
  class Binding {
    const element: Element
    const handlers: Handlers
    var lastHover: Token

    constructor (element: Element, handlers: Handlers)
      ensures this.element == element && this.handlers == handlers && lastHover == Falsy
    {
      this.element := element;
      this.handlers := handlers;
      lastHover := Falsy;
    }
  }

  /** The mutable fields of an action, as one value. */
  datatype ActionView = ActionView(
    multi: Action?, second: bool, active: bool,
    layerX: int, layerY: int,
    totalX: nat, totalY: nat,
    lastX: int, lastY: int,
    diffX: int, diffY: int,
    dx: int, dy: int,
    wheel: int,
    userData: UserData,
    distanceSeeded: bool)

  /**
   * One tracked contact. `multi` is the action it is paired with and `second`
   * says it is the later one of the pair. `distanceSeeded` stands for the
   * pinch baseline (`distance`) having been recorded on this action; the
   * numeric pinch and rotate values are not part of this model.
   */
  class Action {
    var multi: Action?
    var second: bool
    const selected: Token
    const identifier: Ident
    const binding: Binding
    var active: bool
    var layerX: int
    var layerY: int
    const startX: int
    const startY: int
    var totalX: nat
    var totalY: nat
    var lastX: int
    var lastY: int
    var diffX: int
    var diffY: int
    var dx: int
    var dy: int
    var wheel: int
    var userData: UserData
    var distanceSeeded: bool

    constructor (identifier: Ident, binding: Binding, selected: Token, c: Contact)
      ensures this.identifier == identifier && this.binding == binding && this.selected == selected
      ensures multi == null && !second
      ensures startX == c.clientX && startY == c.clientY
      ensures StartsAt(c) && userData == Null
    {
      multi := null;
      second := false;
      this.selected := selected;
      this.identifier := identifier;
      this.binding := binding;
      active := true;
      layerX, layerY := c.layerX, c.layerY;
      startX, startY := c.clientX, c.clientY;
      totalX, totalY := 0, 0;
      lastX, lastY := c.clientX, c.clientY;
      diffX, diffY := 0, 0;
      dx, dy := 0, 0;
      wheel := 0;
      userData := Null;
      distanceSeeded := false;
    }

    ghost function View(): ActionView
      reads this
    {
      ActionView(multi, second, active, layerX, layerY, totalX, totalY,
                 lastX, lastY, diffX, diffY, dx, dy, wheel, userData, distanceSeeded)
    }

    /** The state of an action just created for contact `c`. */
    ghost predicate StartsAt(c: Contact)
      reads this
    {
      active && layerX == c.layerX && layerY == c.layerY &&
      lastX == startX && lastY == startY &&
      totalX == 0 && totalY == 0 && diffX == 0 && diffY == 0 &&
      dx == 0 && dy == 0 && wheel == 0 && !distanceSeeded
    }

    /** The displacement accounting of one move to the client position of `c`. */
    twostate predicate MovedTo(c: Contact)
      reads this
    {
      dx == c.clientX - old(lastX) && dy == c.clientY - old(lastY) &&
      totalX == old(totalX) + Abs(dx) && totalY == old(totalY) + Abs(dy) &&
      lastX == c.clientX && lastY == c.clientY &&
      diffX == lastX - startX && diffY == lastY - startY
    }

    /** The displacement bookkeeping of a live action: `diff` is `last - start`, bounded by the travelled totals. */
    ghost predicate Tracked()
      reads this
    {
      diffX == lastX - startX && diffY == lastY - startY &&
      Abs(diffX) <= totalX && Abs(diffY) <= totalY
    }

    /** The displacement accounting of one move to the client position of `c`. */
    method MoveTo(c: Contact)
      modifies this`dx, this`dy, this`totalX, this`totalY, this`lastX, this`lastY, this`diffX, this`diffY
      ensures MovedTo(c)
      ensures old(Tracked()) ==> Tracked()
    {
      dx := c.clientX - lastX;
      dy := c.clientY - lastY;
      totalX := totalX + Abs(dx);
      totalY := totalY + Abs(dy);
      lastX := c.clientX;
      lastY := c.clientY;
      diffX := lastX - startX;
      diffY := lastY - startY;
    }
  }

  /** `findBinding`: the first binding registered for `element`, or null. */
  function FirstBinding(s: seq<Binding>, element: Element): (b: Binding?)
    ensures b != null ==> b in s && b.element == element
    ensures b == null <==> forall x :: x in s ==> x.element != element
    decreases |s|
  {
    if s == [] then null
    else if s[0].element == element then s[0]
    else FirstBinding(s[1..], element)
  }

  /** The binding `findBinding` returns is the first one for the element: none before it matches. */
  lemma {:induction false} FirstBindingIsFirst(s: seq<Binding>, element: Element)
    ensures var b := FirstBinding(s, element);
            b != null ==> exists i :: 0 <= i < |s| && s[i] == b && forall j :: 0 <= j < i ==> s[j].element != element
    decreases |s|
  {
    var b := FirstBinding(s, element);
    if b != null && s[0].element != element {
      FirstBindingIsFirst(s[1..], element);
      var k :| 0 <= k < |s[1..]| && s[1..][k] == b && forall j :: 0 <= j < k ==> s[1..][j].element != element;
      forall j | 0 <= j < k + 1
        ensures s[j].element != element
      {
        if j > 0 { assert s[j] == s[1..][j - 1]; }
      }
      assert s[k + 1] == b;
    }
  }

  /** The live action with identifier `id`, or null. */
  function FirstWithIdent(s: seq<Action>, id: Ident): (a: Action?)
    ensures a != null ==> a in s && a.identifier == id
    ensures a == null <==> forall x :: x in s ==> x.identifier != id
    decreases |s|
  {
    if s == [] then null
    else if s[0].identifier == id then s[0]
    else FirstWithIdent(s[1..], id)
  }

  /** The action the lookup by identifier returns is the first one with that identifier. */
  lemma {:induction false} FirstWithIdentIsFirst(s: seq<Action>, id: Ident)
    ensures var a := FirstWithIdent(s, id);
            a != null ==> exists i :: 0 <= i < |s| && s[i] == a && forall j :: 0 <= j < i ==> s[j].identifier != id
    decreases |s|
  {
    var a := FirstWithIdent(s, id);
    if a != null && s[0].identifier != id {
      FirstWithIdentIsFirst(s[1..], id);
      var k :| 0 <= k < |s[1..]| && s[1..][k] == a && forall j :: 0 <= j < k ==> s[1..][j].identifier != id;
      forall j | 0 <= j < k + 1
        ensures s[j].identifier != id
      {
        if j > 0 { assert s[j] == s[1..][j - 1]; }
      }
      assert s[k + 1] == a;
    }
  }

  /** The first live action on the same element and with the same selection, or null. */
  function FirstPartner(s: seq<Action>, element: Element, sel: Token): (a: Action?)
    ensures a != null ==> a in s && a.binding.element == element && a.selected == sel
    ensures a == null <==> forall x :: x in s ==> !(x.binding.element == element && x.selected == sel)
    decreases |s|
  {
    if s == [] then null
    else if s[0].binding.element == element && s[0].selected == sel then s[0]
    else FirstPartner(s[1..], element, sel)
  }

  /** The candidate partner is the first action on the element with the selection. */
  lemma {:induction false} FirstPartnerIsFirst(s: seq<Action>, element: Element, sel: Token)
    ensures var a := FirstPartner(s, element, sel);
            a != null ==>
              exists i :: 0 <= i < |s| && s[i] == a &&
                forall j :: 0 <= j < i ==> !(s[j].binding.element == element && s[j].selected == sel)
    decreases |s|
  {
    var a := FirstPartner(s, element, sel);
    if a != null && !(s[0].binding.element == element && s[0].selected == sel) {
      FirstPartnerIsFirst(s[1..], element, sel);
      var k :| 0 <= k < |s[1..]| && s[1..][k] == a &&
               forall j :: 0 <= j < k ==> !(s[1..][j].binding.element == element && s[1..][j].selected == sel);
      forall j | 0 <= j < k + 1
        ensures !(s[j].binding.element == element && s[j].selected == sel)
      {
        if j > 0 { assert s[j] == s[1..][j - 1]; }
      }
      assert s[k + 1] == a;
    }
  }

  /** No two live actions share an identifier. */
  predicate UniqueIdentifiers(s: seq<Action>)
  {
    forall i, j :: 0 <= i < j < |s| ==> s[i].identifier != s[j].identifier
  }

  /** With unique identifiers, the lookup by identifier finds every live action. */
  lemma {:induction false} FirstWithIdentFinds(s: seq<Action>, a: Action)
    requires UniqueIdentifiers(s) && a in s
    ensures FirstWithIdent(s, a.identifier) == a
    decreases |s|
  {
    if s[0] != a {
      assert s[0].identifier != a.identifier by {
        var k :| 0 <= k < |s| && s[k] == a;
        assert k != 0;
      }
      assert UniqueIdentifiers(s[1..]) by {
        forall i, j | 0 <= i < j < |s[1..]|
          ensures s[1..][i].identifier != s[1..][j].identifier
        {
          assert s[1..][i] == s[i + 1] && s[1..][j] == s[j + 1];
        }
      }
      FirstWithIdentFinds(s[1..], a);
    }
  }

  /** Removing an action keeps the identifiers unique. */
  lemma WithoutKeepsUnique(s: seq<Action>, a: Action)
    requires UniqueIdentifiers(s) && a in s
    ensures UniqueIdentifiers(Without(s, a))
  {
    var i := IndexOf(s, a);
    assert Without(s, a) == s[..i] + s[i + 1..];
    RemoveAtKeepsUnique(s, i);
  }

  lemma RemoveAtKeepsUnique(s: seq<Action>, i: nat)
    requires UniqueIdentifiers(s) && i < |s|
    ensures UniqueIdentifiers(s[..i] + s[i + 1..])
  {
    var r := s[..i] + s[i + 1..];
    forall p, q | 0 <= p < q < |r|
      ensures r[p].identifier != r[q].identifier
    {
      if q < i {
        assert r[p] == s[p] && r[q] == s[q];
      } else if p < i {
        assert r[p] == s[p] && r[q] == s[q + 1];
      } else {
        assert r[p] == s[p + 1] && r[q] == s[q + 1];
      }
    }
  }

  /** Appending an action whose identifier is new keeps the identifiers unique. */
  lemma AppendKeepsUnique(s: seq<Action>, a: Action)
    requires UniqueIdentifiers(s)
    requires forall x :: x in s ==> x.identifier != a.identifier
    ensures UniqueIdentifiers(s + [a])
  {
    var t := s + [a];
    forall i, j | 0 <= i < j < |t|
      ensures t[i].identifier != t[j].identifier
    {
      assert t[i] == s[i];
      if j < |s| { assert t[j] == s[j]; }
    }
  }

  /** The selection a new action on a binding with handlers `h` is created with. */
  function CreationSelection(h: Handlers, c: Contact): Token
  {
    if Select in h then c.selectReply else Falsy
  }

  /** `select` exists and reports that the contact is outside every selectable part. */
  predicate Missed(h: Handlers, c: Contact)
  {
    Select in h && !c.selectReply.Truthy?
  }

  /** The handlers called on the creation path: `select`, then `outer` on a miss. */
  function CreationCalls(h: Handlers, c: Contact): seq<Call>
  {
    (if Select in h then [Invoke(Select, AtPoint(c.layerX, c.layerY))] else []) +
    (if Missed(h, c) && Outer in h then [Invoke(Outer, AtPoint(c.layerX, c.layerY))] else [])
  }

  /** The handlers called before the action lookup on a binding with handlers `h` that last hovered `last`: `trigger`, then hover tracking. */
  function PreludeCalls(h: Handlers, last: Token, c: Contact): seq<Call>
  {
    (if Trigger in h then [Invoke(Trigger, OnEvent)] else []) +
    HoverStep(h, last, c.selectReply, c.layerX, c.layerY).1
  }

  /** The `leave` call made when a contact is found to have left its action's element. */
  function StopCalls(a: Action): seq<Call>
  {
    if a.selected.Truthy? && Leave in a.binding.handlers then [Invoke(Leave, OnAction(a.identifier))] else []
  }

  /**
   * The destructor returned by `bind`, as written: `splice(indexOf(binding), 1)`.
   * See `DestroyAsWrittenDropsOther`; the model's destructor is `Destructor.Run`.
   */
  function DestroyAsWritten(bs: seq<Binding>, b: Binding): seq<Binding>
  {
    SpliceOne(bs, IndexOf(bs, b))
  }

  /**
   * After `unbind(element)` has removed a binding, running that binding's
   * destructor removes the last registered binding, whichever element it belongs to.
   */
  lemma DestroyAsWrittenDropsOther(bs: seq<Binding>, stale: Binding)
    requires stale !in bs && bs != []
    ensures DestroyAsWritten(bs, stale) == bs[..|bs| - 1]
  {
  }

  /** The six entry points. */
  datatype Entry = StartEntry | MoveEntry | WheelEntry | OverEntry | CancelEntry | EndEntry
  {
    /** Entries whose callback's return value decides `preventDefault`. */
    predicate ReturnsResult() { this == StartEntry || this == MoveEntry }
    /** Entries whose callback calls `preventDefault` itself. */
    predicate PreventsInside() { this == WheelEntry || this == OverEntry }
    /** The `creatable` argument the entry's callback passes to `getAction`. */
    predicate Creates() { this == StartEntry }
    /** The `stoppable` argument the entry's callback passes to `getAction`. */
    predicate Stops() { this == OverEntry || this == CancelEntry || this == EndEntry }
    /** The identifier the entry's callback passes to `getAction`. */
    function Given(): Ident { if this == OverEntry then MouseOver else NullId }

    /** Whether the entry's callback returns a truthy value for record `c` in state `s`. */
    function Result(s: Snapshot, c: Contact): bool
      requires s.Complete()
    {
      match this
      case StartEntry => StartResult(s, c)
      case MoveEntry => MoveResult(s, c)
      case _ => false
    }

    /** Whether the entry's callback itself calls `preventDefault` for record `c` in state `s`. */
    function Prevents(s: Snapshot, c: Contact): bool
      requires s.Complete()
    {
      match this
      case WheelEntry => WheelPrevents(s, c)
      case OverEntry => OverPrevents(s, c)
      case _ => false
    }
  }

  /**
   * The engine state one record is processed in, as a value: the two
   * tables and the fields of every action (the outcomes of the callbacks do
   * not depend on the hover tokens).
   */
  datatype Snapshot = Snapshot(actions: seq<Action>, bindings: seq<Binding>, views: map<Action, ActionView>)
  {
    /** Every live action and every partner has its fields recorded. */
    predicate Complete()
    {
      (forall a :: a in actions ==> a in views) &&
      (forall a {:trigger views[a]} :: a in views && views[a].multi != null ==> views[a].multi in views)
    }
  }

  /**
   * `eventHelper`'s bookkeeping over the records `cs`: the `k`-th record is
   * processed in state `snaps[k]` and leaves `snaps[k + 1]`, as its entry's
   * transition says; its callback returned `results[k]` and called
   * `preventDefault` itself when `prevents[k]`, as its entry says.
   */
  ghost predicate Reported(kind: Entry, cs: seq<Contact>, snaps: seq<Snapshot>, results: seq<bool>, prevents: seq<bool>)
    decreases |cs|
  {
    |snaps| == |cs| + 1 && |results| == |prevents| == |cs| &&
    (cs != [] ==>
       var n := |cs| - 1;
       Reported(kind, cs[..n], snaps[..n + 1], results[..n], prevents[..n]) &&
       Transition(kind, snaps[n], cs[n], snaps[n + 1]) &&
       results[n] == kind.Result(snaps[n], cs[n]) &&
       prevents[n] == kind.Prevents(snaps[n], cs[n]))
  }

  /** The bookkeeping of `Reported`, record by record. */
  lemma {:induction false} ReportedAt(kind: Entry, cs: seq<Contact>, snaps: seq<Snapshot>, results: seq<bool>, prevents: seq<bool>, k: nat)
    requires Reported(kind, cs, snaps, results, prevents) && k < |cs|
    ensures snaps[k].Complete() && snaps[k + 1].Complete()
    ensures Transition(kind, snaps[k], cs[k], snaps[k + 1])
    ensures results[k] == kind.Result(snaps[k], cs[k]) && prevents[k] == kind.Prevents(snaps[k], cs[k])
    decreases |cs|
  {
    var n := |cs| - 1;
    if k < n {
      ReportedAt(kind, cs[..n], snaps[..n + 1], results[..n], prevents[..n], k);
    }
  }

  /** One more record processed, leaving `t`: the bookkeeping extends by that record's outcome. */
  lemma ReportedExtend(kind: Entry, cs: seq<Contact>, i: nat, snaps: seq<Snapshot>, results: seq<bool>, prevents: seq<bool>,
                       t: Snapshot, r: bool, p: bool)
    requires i < |cs| && Reported(kind, cs[..i], snaps, results, prevents)
    requires Transition(kind, snaps[i], cs[i], t)
    requires r == kind.Result(snaps[i], cs[i]) && p == kind.Prevents(snaps[i], cs[i])
    ensures Reported(kind, cs[..i + 1], snaps + [t], results + [r], prevents + [p])
  {
    assert cs[..i + 1][..i] == cs[..i];
    assert (snaps + [t])[..i + 1] == snaps && (results + [r])[..i] == results && (prevents + [p])[..i] == prevents;
  }

  /**
   * Some record's callback returned a truthy value (or prevented the default
   * itself) exactly when one is reported so, and the states chain from one
   * record to the next.
   */
  lemma ReportedAny(kind: Entry, cs: seq<Contact>, snaps: seq<Snapshot>, results: seq<bool>, prevents: seq<bool>)
    requires Reported(kind, cs, snaps, results, prevents)
    ensures forall k :: 0 <= k < |cs| ==> snaps[k].Complete()
    ensures (true in results) <==> exists k :: 0 <= k < |cs| && kind.Result(snaps[k], cs[k])
    ensures (true in prevents) <==> exists k :: 0 <= k < |cs| && kind.Prevents(snaps[k], cs[k])
    ensures forall k :: 0 <= k < |cs| ==> Transition(kind, snaps[k], cs[k], snaps[k + 1])
  {
    forall k | 0 <= k < |cs|
      ensures snaps[k].Complete()
      ensures results[k] == kind.Result(snaps[k], cs[k]) && prevents[k] == kind.Prevents(snaps[k], cs[k])
      ensures Transition(kind, snaps[k], cs[k], snaps[k + 1])
    {
      ReportedAt(kind, cs, snaps, results, prevents, k);
    }
  }

  /**
   * The handler calls `getAction` makes for record `c` over the tables
   * `actions` and `bindings`, the element's binding having last hovered
   * `hover`, in order.
   */
  function ResolveCalls(actions: seq<Action>, bindings: seq<Binding>, hover: Token,
                        c: Contact, creatable: bool, stoppable: bool, given: Ident): seq<Call>
  {
    var b := FirstBinding(bindings, c.target);
    var f := FirstWithIdent(actions, ResolveIdentifier(given, c.identifier));
    (if b == null then [] else PreludeCalls(b.handlers, hover, c)) +
    (if f != null then (if f.binding != b && stoppable then StopCalls(f) else [])
     else if b != null && creatable then CreationCalls(b.handlers, c)
     else [])
  }

  /**
   * `onStart`'s callback returns true when the record's identifier has an
   * action, or when its element is bound, `select` does not miss it and the
   * candidate partner is not already paired.
   */
  function StartResult(s: Snapshot, c: Contact): bool
    requires s.Complete()
  {
    var b := FirstBinding(s.bindings, c.target);
    FirstWithIdent(s.actions, Touchify.Id(c)) != null ||
    (b != null && !Missed(b.handlers, c) &&
     var p := FirstPartner(s.actions, c.target, CreationSelection(b.handlers, c));
     p == null || s.views[p].multi == null)
  }

  /**
   * Whether `onMove`'s callback returns true for record `c` on action `f`,
   * whose state is `v` and whose partner's state is `pv` (unused when it
   * is unpaired): for a pair, unless `scale` is registered and the two
   * contacts coincide or no baseline is recorded yet; unpaired, the reply
   * of `move2` is falsy, or the travel is mostly vertical and `try_move`
   * replies truthy, or it is not and `move` is called or absent.
   */
  function MoveHandled(f: Action, v: ActionView, pv: ActionView, c: Contact): bool
  {
    var h := f.binding.handlers;
    if v.multi != null then
      var seeded := if v.second then v.distanceSeeded else pv.distanceSeeded;
      !(Scale in h && ((c.clientX == pv.lastX && c.clientY == pv.lastY) || !seeded))
    else if Move2 in h then !c.reply
    else if v.totalY + Abs(c.clientY - v.lastY) > v.totalX + Abs(c.clientX - v.lastX) then TryMove in h && c.reply
    else true
  }

  /** `MoveHandled` does not look at the layer coordinates, which `getAction` refreshes before the move. */
  lemma MoveHandledIgnoresLayer(f: Action, v: ActionView, pv: ActionView, c: Contact, x: int, y: int)
    ensures MoveHandled(f, v.(layerX := x, layerY := y), if v.multi != null then pv else v.(layerX := x, layerY := y), c) ==
            MoveHandled(f, v, if v.multi != null then pv else v, c)
  {
  }

  /** `onMove`'s callback returns true only on a live active action, as `MoveHandled` says. */
  function MoveResult(s: Snapshot, c: Contact): bool
    requires s.Complete()
  {
    var f := FirstWithIdent(s.actions, Touchify.Id(c));
    f != null && s.views[f].active &&
    MoveHandled(f, s.views[f], if s.views[f].multi != null then s.views[s.views[f].multi] else s.views[f], c)
  }

  /** `onWheel`'s callback prevents the default on a live active action whose `wheel` replies falsy. */
  function WheelPrevents(s: Snapshot, c: Contact): bool
    requires s.Complete()
  {
    var f := FirstWithIdent(s.actions, Touchify.Id(c));
    f != null && s.views[f].active && Wheel in f.binding.handlers && !c.reply
  }

  /** `onOver`'s callback prevents the default when the 'mouseover' action stays on its element and `hover` replies falsy. */
  function OverPrevents(s: Snapshot, c: Contact): bool
    requires s.Complete()
  {
    var f := FirstWithIdent(s.actions, MouseOver);
    f != null && f.binding == FirstBinding(s.bindings, c.target) && Hover in f.binding.handlers && !c.reply
  }

  /** The fields `v` of an action after `getAction` refreshed its layer coordinates from `c`. */
  function Refreshed(v: ActionView, c: Contact): ActionView
  {
    v.(layerX := c.layerX, layerY := c.layerY)
  }

  /**
   * The fields `v` of an action that started at (`startX`, `startY`) after
   * the displacement accounting of one move to the client position of `c`.
   */
  function Accounted(v: ActionView, c: Contact, startX: int, startY: int): ActionView
  {
    var dx := c.clientX - v.lastX;
    var dy := c.clientY - v.lastY;
    v.(dx := dx, dy := dy, totalX := v.totalX + Abs(dx), totalY := v.totalY + Abs(dy),
       lastX := c.clientX, lastY := c.clientY, diffX := c.clientX - startX, diffY := c.clientY - startY)
  }

  /**
   * Whether an unpaired action stays active after `onMove`, given its
   * accounted fields `v`: `move2` replied falsy; or, the travel being mostly
   * vertical, `try_move` is absent or replied truthy; or else `move` is absent
   * or replied falsy.
   */
  function StaysActive(h: Handlers, v: ActionView, c: Contact): bool
  {
    if Move2 in h then !c.reply
    else if v.totalY > v.totalX then TryMove !in h || c.reply
    else !(Move in h && c.reply)
  }

  /** Every action recorded in `s` is recorded in `t`, and all but `x` and `y` keep their fields. */
  ghost predicate KeepsOthers(s: Snapshot, t: Snapshot, x: Action?, y: Action?)
  {
    (forall a :: a in s.views ==> a in t.views) &&
    forall a :: a in s.views && a != x && a != y ==> t.views[a] == s.views[a]
  }

  /**
   * One run of `onStart`'s callback on `c` in state `s`, leaving `t`: a live
   * action with the identifier gets fresh layer coordinates and `start`'s
   * reply (copied onto its partner when it is the second of a pair); when
   * there is none and the record is handled, one new action at rest is
   * appended, paired with the first candidate partner; otherwise nothing
   * changes.
   */
  ghost predicate StartTransition(s: Snapshot, c: Contact, t: Snapshot)
    requires s.Complete() && t.Complete()
  {
    var f := FirstWithIdent(s.actions, Touchify.Id(c));
    var b := FirstBinding(s.bindings, c.target);
    if f != null then
      var p := s.views[f].multi;
      var data := if Start in f.binding.handlers then c.startReply else s.views[f].userData;
      t.actions == s.actions && KeepsOthers(s, t, f, p) &&
      t.views[f] == Refreshed(s.views[f], c).(userData := data) &&
      (p != null ==> t.views[p] == s.views[p].(userData := if s.views[f].second then data else s.views[p].userData))
    else if !StartResult(s, c) then
      t.actions == s.actions && KeepsOthers(s, t, null, null)
    else
      var sel := CreationSelection(b.handlers, c);
      var p := FirstPartner(s.actions, c.target, sel);
      var data := if Start in b.handlers then c.startReply else Null;
      |t.actions| == |s.actions| + 1 && t.actions[..|s.actions|] == s.actions &&
      var r := t.actions[|s.actions|];
      r !in s.views && r.identifier == Touchify.Id(c) && r.binding == b && r.selected == sel &&
      r.startX == c.clientX && r.startY == c.clientY &&
      t.views[r] == ActionView(p, p != null, true, c.layerX, c.layerY, 0, 0, c.clientX, c.clientY, 0, 0, 0, 0, 0, data, false) &&
      KeepsOthers(s, t, p, null) &&
      (p != null ==> t.views[p] == s.views[p].(multi := r, userData := data))
  }

  /**
   * One run of `onMove`'s callback on `c` in state `s`, leaving `t`: the
   * tables stay; an inactive action only gets fresh layer coordinates; an
   * active one is accounted, then either keeps `active` and seeds the pinch
   * baseline on the second action of its pair as `PairMoved` says, or, when
   * unpaired, stays active as `StaysActive` says.
   */
  ghost predicate MoveTransition(s: Snapshot, c: Contact, t: Snapshot)
    requires s.Complete() && t.Complete()
  {
    var f := FirstWithIdent(s.actions, Touchify.Id(c));
    t.actions == s.actions &&
    if f == null then KeepsOthers(s, t, null, null)
    else if !s.views[f].active then KeepsOthers(s, t, f, null) && t.views[f] == Refreshed(s.views[f], c)
    else
      var v := Accounted(Refreshed(s.views[f], c), c, f.startX, f.startY);
      var p := v.multi;
      KeepsOthers(s, t, f, p) &&
      if p == null then t.views[f] == v.(active := StaysActive(f.binding.handlers, v, c))
      else
        var first := if v.second then s.views[p] else v;
        var second := if v.second then v else s.views[p];
        var seeded := second.distanceSeeded ||
                      (Scale in f.binding.handlers && !(first.lastX == second.lastX && first.lastY == second.lastY));
        if v.second then t.views[f] == v.(distanceSeeded := seeded) && t.views[p] == s.views[p]
        else t.views[f] == v && t.views[p] == s.views[p].(distanceSeeded := seeded)
  }

  /** One run of `onWheel`'s callback on `c`: the tables stay, and only the resolved action changes, its wheel only when active. */
  ghost predicate WheelTransition(s: Snapshot, c: Contact, t: Snapshot)
    requires s.Complete() && t.Complete()
  {
    var f := FirstWithIdent(s.actions, Touchify.Id(c));
    t.actions == s.actions && KeepsOthers(s, t, f, null) &&
    (f != null ==>
       t.views[f] == Refreshed(s.views[f], c).(wheel := if s.views[f].active then ClampWheel(WheelDelta(c)) else s.views[f].wheel))
  }

  /**
   * One run of `onOver`'s callback on `c`: the 'mouseover' action stays
   * (refreshed) when it is on the element's binding and `hover` is
   * registered; it is removed, refreshed, when `hover` is not, and removed
   * untouched when it belongs to another binding.
   */
  ghost predicate OverTransition(s: Snapshot, c: Contact, t: Snapshot)
    requires s.Complete() && t.Complete()
  {
    var f := FirstWithIdent(s.actions, MouseOver);
    var b := FirstBinding(s.bindings, c.target);
    KeepsOthers(s, t, f, null) &&
    t.actions == (if f == null || (f.binding == b && Hover in f.binding.handlers) then s.actions else Without(s.actions, f)) &&
    (f != null ==> t.views[f] == if f.binding == b then Refreshed(s.views[f], c) else s.views[f])
  }

  /**
   * One run of `onCancel`'s (`cancel`) or `onEnd`'s callback on `c`: the
   * resolved action is removed; when it is on the element's binding it is
   * refreshed first, and `onCancel` also makes it inactive.
   */
  ghost predicate StopTransition(cancel: bool, s: Snapshot, c: Contact, t: Snapshot)
    requires s.Complete() && t.Complete()
  {
    var f := FirstWithIdent(s.actions, Touchify.Id(c));
    var b := FirstBinding(s.bindings, c.target);
    KeepsOthers(s, t, f, null) &&
    t.actions == (if f == null then s.actions else Without(s.actions, f)) &&
    (f != null ==>
       t.views[f] == if f.binding != b then s.views[f]
                     else Refreshed(s.views[f], c).(active := s.views[f].active && !cancel))
  }

  /**
   * What one run of `kind`'s callback on record `c` does to the engine state
   * `s`, leaving `t`: the registry stays, and the action table and the
   * actions' fields change as the entry point's transition says.
   */
  ghost predicate Transition(kind: Entry, s: Snapshot, c: Contact, t: Snapshot)
  {
    Framed(s, t) &&
    match kind
    case StartEntry => StartTransition(s, c, t)
    case MoveEntry => MoveTransition(s, c, t)
    case WheelEntry => WheelTransition(s, c, t)
    case OverEntry => OverTransition(s, c, t)
    case CancelEntry => StopTransition(true, s, c, t)
    case EndEntry => StopTransition(false, s, c, t)
  }

  /** Both states are complete and the registry is the same in each. */
  ghost predicate Framed(s: Snapshot, t: Snapshot)
  {
    s.Complete() && t.Complete() && t.bindings == s.bindings
  }

  /** Hover tracking updated the binding of the contact's element among `bs`, and no other. */
  twostate predicate Hovered(bs: seq<Binding>, e: Contact)
    reads bs
  {
    var b := FirstBinding(bs, e.target);
    (b != null ==> b.lastHover == HoverStep(b.handlers, old(b.lastHover), e.selectReply, e.layerX, e.layerY).0) &&
    forall x :: x in bs && x != b ==> unchanged(x)
  }

  /** The calls `onEnd` makes on an action, in order. */
  function EndCalls(a: Action): seq<Call>
    reads a
  {
    if a.active then
      (if a.totalX < 10 && a.totalY < 10 && Click in a.binding.handlers
       then [Invoke(Click, OnAction(a.identifier))] else []) +
      (if End in a.binding.handlers then [Invoke(End, OnAction(a.identifier))] else []) +
      (if Finally in a.binding.handlers then [Invoke(Finally, OnAction(a.identifier))] else [])
    else []
  }

  /**
   * The calls of `onEnd`: nothing for an inactive action; `click` exactly
   * when the action is active, both travelled totals are under 10 and it is
   * registered; `end` before `finally`. With the displacement bookkeeping
   * in place, a click means the last recorded position is within 10 pixels
   * of the start on each axis.
   */
  lemma EndCallsClick(a: Action)
    requires a.Tracked()
    ensures !a.active ==> EndCalls(a) == []
    ensures Invoke(Click, OnAction(a.identifier)) in EndCalls(a) <==>
              a.active && a.totalX < 10 && a.totalY < 10 && Click in a.binding.handlers
    ensures Invoke(Click, OnAction(a.identifier)) in EndCalls(a) ==>
              Abs(a.lastX - a.startX) < 10 && Abs(a.lastY - a.startY) < 10
    ensures a.active && End in a.binding.handlers ==>
              EndCalls(a)[|EndCalls(a)| - 1 - (if Finally in a.binding.handlers then 1 else 0)] ==
              Invoke(End, OnAction(a.identifier))
  {
  }

  /** The function `bind` returns; it removes its binding the first time it runs. */
  class Destructor {
    var binding: Binding?

    constructor (b: Binding)
      ensures binding == b
    {
      binding := b;
    }

    /** Removes this destructor's binding if it is still registered, and only it. */
    method Run(t: Touchify)
      modifies this, t`bindings
      ensures binding == null
      ensures t.bindings == if old(binding) == null then old(t.bindings) else Without(old(t.bindings), old(binding))
    {
      if binding != null {
        t.bindings := Without(t.bindings, binding);
        binding := null;
      }
    }
  }

  /** The engine: the two module-level tables of the library and the operations on them. */
  class Touchify {
    var bindings: seq<Binding>
    var actions: seq<Action>
    /** Every action ever created, including those already removed from `actions`. */
    ghost var Known: set<Action>

    /**
     * Live actions have unique identifiers and consistent displacement
     * bookkeeping; pair links are symmetric, join a first and a second
     * action, and are never dropped (not even when a partner is removed).
     */
    ghost predicate Valid()
      reads this, Known
    {
      (forall a :: a in actions ==> a in Known) &&
      UniqueIdentifiers(actions) &&
      (forall a :: a in Known && a.multi != null ==>
        a.multi in Known && a.multi.multi == a && a.multi.second != a.second) &&
      (forall a :: a in Known && a.second ==> a.multi != null) &&
      (forall a :: a in actions ==> a.Tracked())
    }

    /** The current state as a value. */
    ghost function Snap(): (s: Snapshot)
      reads this, Known
    {
      Snapshot(actions, bindings, map a | a in Known :: a.View())
    }

    /** The snapshot of a valid state is complete and records the tables. */
    lemma SnapTables()
      requires Valid()
      ensures Snap().Complete() && Snap().actions == actions && Snap().bindings == bindings
    {
    }

    /** The snapshot records the fields of a known action. */
    lemma SnapView(a: Action?)
      requires Valid()
      ensures a != null && a in Known ==> a in Snap().views && Snap().views[a] == a.View()
    {
    }

    /** The token the binding of `element` last hovered (falsy when it is not bound). */
    function LastHover(element: Element): Token
      reads this, bindings
    {
      var b := FirstBinding(bindings, element);
      if b == null then Falsy else b.lastHover
    }

    constructor ()
      ensures Valid() && bindings == [] && actions == [] && Known == {}
    {
      bindings, actions := [], [];
      Known := {};
    }

    /** `findBinding`. */
    method FindBinding(element: Element) returns (b: Binding?)
      ensures b == FirstBinding(bindings, element)
    {
      var i := 0;
      while i < |bindings|
        invariant 0 <= i <= |bindings|
        invariant FirstBinding(bindings, element) == FirstBinding(bindings[i..], element)
      {
        assert bindings[i..][1..] == bindings[i + 1..];
        if bindings[i].element == element {
          return bindings[i];
        }
        i := i + 1;
      }
      return null;
    }

    /** `removeAction`: `splice(indexOf(action), 1)`, correct only for an action in the table. */
    method RemoveAction(action: Action)
      requires Valid() && action in actions
      modifies this`actions
      ensures Valid()
      ensures actions == Without(old(actions), action)
    {
      SpliceIndexOfPresent(actions, action);
      actions := SpliceOne(actions, IndexOf(actions, action));
      WithoutKeepsUnique(old(actions), action);
      forall a | a in actions
        ensures a.Tracked()
      {
        WithoutSubset(old(actions), action, a);
      }
    }

    /** The scan of the action table by identifier. */
    method FindAction(id: Ident) returns (a: Action?)
      ensures a == FirstWithIdent(actions, id)
    {
      var i := 0;
      while i < |actions|
        invariant 0 <= i <= |actions|
        invariant FirstWithIdent(actions, id) == FirstWithIdent(actions[i..], id)
      {
        assert actions[i..][1..] == actions[i + 1..];
        if actions[i].identifier == id {
          return actions[i];
        }
        i := i + 1;
      }
      return null;
    }

    /** The scan of the action table for an action on the same element and selection. */
    method FindPartner(element: Element, sel: Token) returns (m: Action?)
      ensures m == FirstPartner(actions, element, sel)
    {
      var i := 0;
      while i < |actions|
        invariant 0 <= i <= |actions|
        invariant FirstPartner(actions, element, sel) == FirstPartner(actions[i..], element, sel)
      {
        assert actions[i..][1..] == actions[i + 1..];
        if actions[i].binding.element == element && actions[i].selected == sel {
          return actions[i];
        }
        i := i + 1;
      }
      return null;
    }

    /**
     * The start of `getAction` on the binding of the record's element, if
     * any: `trigger`, then hover tracking against `_last_hover`.
     */
    method Prelude(binding: Binding?, e: Contact) returns (calls: seq<Call>)
      requires binding == FirstBinding(bindings, e.target)
      modifies bindings
      ensures Hovered(bindings, e)
      ensures binding != null ==>
                binding.lastHover == HoverStep(binding.handlers, old(binding.lastHover), e.selectReply, e.layerX, e.layerY).0
      ensures calls == if binding == null then [] else PreludeCalls(binding.handlers, old(LastHover(e.target)), e)
    {
      calls := [];
      if binding != null {
        calls := PreludeCalls(binding.handlers, binding.lastHover, e);
        binding.lastHover := HoverStep(binding.handlers, binding.lastHover, e.selectReply, e.layerX, e.layerY).0;
      }
    }

    /**
     * The creation path of `getAction`: `select`, and `outer` on a miss;
     * otherwise the insertion of a new action.
     */
    method Create(binding: Binding, e: Contact, id: Ident) returns (r: Action?, calls: seq<Call>)
      requires Valid()
      requires binding.element == e.target
      requires FirstWithIdent(actions, id) == null
      modifies this`actions, this`Known, Known
      ensures Valid()
      ensures calls == CreationCalls(binding.handlers, e)
      ensures Missed(binding.handlers, e) ==> r == null && Untouched()
      ensures !Missed(binding.handlers, e) ==> Inserted(binding, e, id, CreationSelection(binding.handlers, e), r)
    {
      calls := CreationCalls(binding.handlers, e);
      if Missed(binding.handlers, e) {
        return null, calls;
      }
      r := Insert(binding, e, id, CreationSelection(binding.handlers, e));
    }

    /**
     * The pairing scan and the insertion: refused when the candidate partner
     * is already paired, otherwise a new action appended to the table and
     * linked both ways with the candidate partner when there is one.
     */
    method Insert(binding: Binding, e: Contact, id: Ident, selected: Token) returns (r: Action?)
      requires Valid()
      requires binding.element == e.target
      requires FirstWithIdent(actions, id) == null
      modifies this`actions, this`Known, Known
      ensures Valid()
      ensures Inserted(binding, e, id, selected, r)
    {
      var multi := FindPartner(e.target, selected);
      if multi != null && multi.multi != null {
        return null;
      }
      r := new Action(id, binding, selected, e);
      Push(r);
      if multi != null {
        Link(multi, r);
      }
    }

    /** `actions.push`: appends a new unpaired action whose identifier is not in use. */
    method Push(r: Action)
      requires Valid() && r !in Known
      requires r.multi == null && !r.second && r.Tracked()
      requires FirstWithIdent(actions, r.identifier) == null
      modifies this`actions, this`Known
      ensures Valid()
      ensures actions == old(actions) + [r] && Known == old(Known) + {r}
    {
      AppendKeepsUnique(actions, r);
      actions := actions + [r];
      Known := Known + {r};
    }

    /** Links a new action with its unpaired partner both ways, the new one second. */
    method Link(p: Action, r: Action)
      requires Valid() && p in Known && r in Known && p != r
      requires p.multi == null && r.multi == null && !r.second
      modifies p`multi, r`multi, r`second
      ensures Valid()
      ensures p.multi == r && r.multi == p && r.second && !p.second
    {
      p.multi := r;
      r.multi := p;
      r.second := true;
      forall a | a in Known && a.multi != null
        ensures a.multi in Known && a.multi.multi == a && a.multi.second != a.second
      {
        if a != r && a != p {
          assert a.multi == old(a.multi) && a.second == old(a.second);
        }
      }
    }

    /**
     * `getAction`: resolves one contact record to its action. The contact's
     * identifier is resolved, its element's binding looked up, `trigger` and
     * hover tracking run; then an action with that identifier is either
     * dropped (its contact left its element and the caller allows stopping)
     * or reused with new layer coordinates; without one, an action is
     * created if the caller allows it and the element is bound.
     */
    method GetAction(e: Contact, creatable: bool, stoppable: bool, given: Ident) returns (r: Action?, calls: seq<Call>)
      requires Valid()
      modifies this`actions, this`Known, Known, bindings
      ensures Valid()
      ensures old(Known) <= Known && fresh(Known - old(Known))
      ensures bindings == old(bindings) && Hovered(bindings, e)
      ensures calls == ResolveCalls(old(actions), old(bindings), old(LastHover(e.target)), e, creatable, stoppable, given)
      ensures var b := FirstBinding(old(bindings), e.target);
              var f := FirstWithIdent(old(actions), ResolveIdentifier(given, e.identifier));
              f != null ==>
                if f.binding != b && stoppable then
                  r == null && actions == Without(old(actions), f) && Known == old(Known) &&
                  forall a :: a in Known ==> unchanged(a)
                else
                  r == f && actions == old(actions) && Known == old(Known) &&
                  f.View() == old(f.View()).(layerX := e.layerX, layerY := e.layerY) &&
                  forall a :: a in Known && a != f ==> unchanged(a)
      ensures var b := FirstBinding(old(bindings), e.target);
              var f := FirstWithIdent(old(actions), ResolveIdentifier(given, e.identifier));
              f == null && (b == null || !creatable) ==> r == null && Untouched()
      ensures var b := FirstBinding(old(bindings), e.target);
              var id := ResolveIdentifier(given, e.identifier);
              FirstWithIdent(old(actions), id) == null && b != null && creatable ==>
                if Missed(b.handlers, e) then r == null && Untouched()
                else Inserted(b, e, id, CreationSelection(b.handlers, e), r)
    {
      var id := ResolveIdentifier(given, e.identifier);
      var binding := FindBinding(e.target);
      calls := Prelude(binding, e);
      assert forall a :: a in Known ==> unchanged(a);
      label hovered:
      var c;
      r, c := Resolve(binding, e, id, creatable, stoppable);
      assert forall x :: x in bindings ==> unchanged@hovered(x);
      calls := calls + c;
    }

    /** The part of `getAction` after hover tracking: the lookup by identifier, the drop, the reuse and the creation. */
    method Resolve(binding: Binding?, e: Contact, id: Ident, creatable: bool, stoppable: bool) returns (r: Action?, calls: seq<Call>)
      requires Valid()
      requires binding != null ==> binding.element == e.target
      modifies this`actions, this`Known, Known
      ensures Valid()
      ensures old(Known) <= Known && fresh(Known - old(Known))
      ensures var f := FirstWithIdent(old(actions), id);
              f != null ==>
                if f.binding != binding && stoppable then
                  r == null && actions == Without(old(actions), f) && Known == old(Known) &&
                  (forall a :: a in Known ==> unchanged(a)) && calls == StopCalls(f)
                else
                  r == f && actions == old(actions) && Known == old(Known) &&
                  f.View() == old(f.View()).(layerX := e.layerX, layerY := e.layerY) &&
                  (forall a :: a in Known && a != f ==> unchanged(a)) && calls == []
      ensures FirstWithIdent(old(actions), id) == null && (binding == null || !creatable) ==>
                r == null && Untouched() && calls == []
      ensures FirstWithIdent(old(actions), id) == null && binding != null && creatable ==>
                calls == CreationCalls(binding.handlers, e) &&
                if Missed(binding.handlers, e) then r == null && Untouched()
                else Inserted(binding, e, id, CreationSelection(binding.handlers, e), r)
    {
      calls := [];
      var action := FindAction(id);
      if action != null && action.binding != binding && stoppable {
        calls := Drop(action);
        return null, calls;
      }
      if action != null {
        Refresh(action, e);
        return action, calls;
      }
      if binding == null {
        return null, calls;
      }
      if !creatable {
        return null, calls;
      }
      r, calls := Create(binding, e, id);
    }

    /** The drop branch of `getAction`: `leave` on a selected action, then its removal. */
    method Drop(action: Action) returns (calls: seq<Call>)
      requires Valid() && action in actions
      modifies this`actions
      ensures Valid()
      ensures actions == Without(old(actions), action)
      ensures calls == StopCalls(action)
    {
      calls := StopCalls(action);
      RemoveAction(action);
    }

    /** The reuse branch of `getAction`: only the layer coordinates of the action change. */
    method Refresh(action: Action, e: Contact)
      requires Valid() && action in actions
      modifies action`layerX, action`layerY
      ensures Valid()
      ensures action.View() == old(action.View()).(layerX := e.layerX, layerY := e.layerY)
    {
      action.layerX := e.layerX;
      action.layerY := e.layerY;
      assert action.Tracked();
    }

    /** Nothing in the tables or in any action has changed. */
    twostate predicate Untouched()
      reads this, Known
    {
      actions == old(actions) && Known == old(Known) &&
      forall a :: a in Known ==> unchanged(a)
    }

    /**
     * What the insertion leaves behind: nothing when the candidate partner
     * is already paired; otherwise exactly one new action, appended, active,
     * at rest at the contact's position, and linked both ways with the
     * candidate partner when there is one.
     */
    twostate predicate Inserted(binding: Binding, e: Contact, id: Ident, sel: Token, new r: Action?)
      reads this, Known
    {
      var p := FirstPartner(old(actions), e.target, sel);
      if p != null && old(p.multi) != null then
        r == null && Untouched()
      else
        r != null && fresh(r) && actions == old(actions) + [r] && Known == old(Known) + {r} &&
        r.identifier == id && r.binding == binding && r.selected == sel &&
        r.startX == e.clientX && r.startY == e.clientY && r.StartsAt(e) && r.userData == Null &&
        r.multi == p && r.second == (p != null) &&
        (p != null ==> p in Known && p.View() == old(p.View()).(multi := r)) &&
        forall a :: a in old(Known) && a != p ==> unchanged(a)
    }

    /** The identifier every entry point but `onOver` resolves a record to. */
    static function Id(e: Contact): Ident
    {
      ResolveIdentifier(NullId, e.identifier)
    }

    /**
     * The per-contact body of `onStart`. It reports true exactly when the
     * record produced an action (reused or created); `start` is called on
     * that action and its reply becomes the action's `userData`, which a
     * second action of a pair then copies onto its partner.
     */
    method StartContact(e: Contact)
      returns (handled: bool, resolved: seq<Call>, dispatched: seq<Call>, ghost action: Action?, ghost partner: Action?)
      requires Valid()
      modifies this`actions, this`Known, Known, bindings
      ensures Valid()
      ensures old(Known) <= Known && fresh(Known - old(Known))
      ensures bindings == old(bindings) && Hovered(bindings, e)
      ensures resolved == ResolveCalls(old(actions), old(bindings), old(LastHover(e.target)), e, true, false, NullId)
      ensures var b := FirstBinding(old(bindings), e.target);
              handled <==>
                FirstWithIdent(old(actions), Id(e)) != null ||
                (b != null && !Missed(b.handlers, e) &&
                 var p := FirstPartner(old(actions), e.target, CreationSelection(b.handlers, e));
                 p == null || old(p.multi) == null)
      ensures handled <==> action != null
      ensures var f := FirstWithIdent(old(actions), Id(e));
              f != null ==>
                action == f && actions == old(actions) && Known == old(Known) &&
                f.View() == old(f.View()).(layerX := e.layerX, layerY := e.layerY, userData := f.userData) &&
                (Start !in f.binding.handlers ==> f.userData == old(f.userData))
      ensures var f := FirstWithIdent(old(actions), Id(e));
              var b := FirstBinding(old(bindings), e.target);
              f == null ==>
                if action == null then Untouched()
                else
                  fresh(action) && actions == old(actions) + [action] && Known == old(Known) + {action} &&
                  action.identifier == Id(e) && action.binding == b &&
                  action.selected == CreationSelection(b.handlers, e) &&
                  action.startX == e.clientX && action.startY == e.clientY && action.StartsAt(e) &&
                  (Start !in b.handlers ==> action.userData == Null) &&
                  action.multi == FirstPartner(old(actions), e.target, action.selected) &&
                  action.second == (action.multi != null)
      ensures action == null ==> dispatched == []
      ensures action != null ==>
                dispatched == (if Start in action.binding.handlers then [Invoke(Start, OnAction(action.identifier))] else []) &&
                (Start in action.binding.handlers ==> action.userData == e.startReply)
      ensures partner == if action == null then null else action.multi
      ensures partner != null ==>
                partner in old(Known) &&
                partner.View() == old(partner.View()).(multi := action, userData := partner.userData) &&
                partner.userData == if action.second then action.userData else old(partner.userData)
      ensures forall a :: a in old(Known) && a != action && a != partner ==> unchanged(a)
    {
      var a;
      a, resolved := StartResolve(e);
      action := a;
      partner := if a == null then null else a.multi;
      dispatched := StartStep(a, e);
      handled := a != null;
    }

    /** `onStart` after `getAction`: nothing without an action, else `StartAction`. */
    method StartStep(a: Action?, e: Contact) returns (dispatched: seq<Call>)
      requires Valid() && (a != null ==> a in actions)
      modifies Known
      ensures Valid()
      ensures a == null ==> dispatched == [] && forall x :: x in Known ==> unchanged(x)
      ensures a != null ==>
                dispatched == (if Start in a.binding.handlers then [Invoke(Start, OnAction(a.identifier))] else []) &&
                a.View() == old(a.View()).(userData := a.userData) &&
                a.userData == if Start in a.binding.handlers then e.startReply else old(a.userData)
      ensures a != null && old(a.multi) != null ==>
                var p := old(a.multi);
                p.View() == old(p.View()).(userData := p.userData) &&
                p.userData == if a.second then a.userData else old(p.userData)
      ensures forall x :: x in Known && x != a && (a == null || x != old(a.multi)) ==> unchanged(x)
    {
      dispatched := [];
      if a == null {
        return;
      }
      assert a.multi != null ==> a.multi.second != a.second;
      dispatched := StartAction(a, e);
    }

    /** `getAction` as `onStart` calls it: creating, never stopping. */
    method StartResolve(e: Contact) returns (r: Action?, calls: seq<Call>)
      requires Valid()
      modifies this`actions, this`Known, Known, bindings
      ensures Valid()
      ensures old(Known) <= Known && fresh(Known - old(Known))
      ensures bindings == old(bindings) && Hovered(bindings, e)
      ensures calls == ResolveCalls(old(actions), old(bindings), old(LastHover(e.target)), e, true, false, NullId)
      ensures var b := FirstBinding(old(bindings), e.target);
              r != null <==>
                FirstWithIdent(old(actions), Id(e)) != null ||
                (b != null && !Missed(b.handlers, e) &&
                 var p := FirstPartner(old(actions), e.target, CreationSelection(b.handlers, e));
                 p == null || old(p.multi) == null)
      ensures r != null ==> r in actions
      ensures var f := FirstWithIdent(old(actions), Id(e));
              f != null ==>
                r == f && actions == old(actions) && Known == old(Known) &&
                f.View() == old(f.View()).(layerX := e.layerX, layerY := e.layerY)
      ensures var f := FirstWithIdent(old(actions), Id(e));
              var b := FirstBinding(old(bindings), e.target);
              f == null ==>
                if r == null then Untouched()
                else
                  fresh(r) && actions == old(actions) + [r] && Known == old(Known) + {r} &&
                  r.identifier == Id(e) && r.binding == b &&
                  r.selected == CreationSelection(b.handlers, e) &&
                  r.startX == e.clientX && r.startY == e.clientY && r.StartsAt(e) && r.userData == Null &&
                  r.multi == FirstPartner(old(actions), e.target, r.selected) &&
                  r.second == (r.multi != null)
      ensures r != null && r.multi != null ==>
                var p := r.multi; p in old(Known) && p.View() == old(p.View()).(multi := r)
      ensures forall a :: a in old(Known) && a != r && (r == null || a != r.multi) ==> unchanged(a)
    {
      r, calls := GetAction(e, true, false, NullId);
    }

    /** `onStart` on the resolved action: `start`, its reply kept as `userData` and copied onto the partner. */
    method StartAction(action: Action, e: Contact) returns (dispatched: seq<Call>)
      requires Valid() && action in actions
      modifies action`userData, action.multi
      ensures Valid()
      ensures dispatched == if Start in action.binding.handlers then [Invoke(Start, OnAction(action.identifier))] else []
      ensures action.userData == if Start in action.binding.handlers then e.startReply else old(action.userData)
      ensures action.multi != null ==>
                action.multi.View() == old(action.multi.View()).(userData := action.multi.userData) &&
                action.multi.userData == if action.second then action.userData else old(action.multi.userData)
    {
      dispatched := [];
      if Start in action.binding.handlers {
        dispatched := [Invoke(Start, OnAction(action.identifier))];
        action.userData := e.startReply;
      }
      if action.multi != null && action.second {
        action.multi.userData := action.userData;
      }
    }

    /**
     * The per-contact body of `onMove`. A record without a live active
     * action changes nothing. Otherwise the displacement is accounted, and
     * then a paired action goes to the pinch/rotate branch while an
     * unpaired one is classified: `move2`, else `try_move` for a mostly
     * vertical travel, else `move`. The result says whether default
     * handling is to be prevented.
     */
    method MoveContact(e: Contact) returns (handled: bool, resolved: seq<Call>, dispatched: seq<Call>)
      requires Valid()
      modifies this`actions, this`Known, Known, bindings
      ensures Valid()
      ensures actions == old(actions) && Known == old(Known)
      ensures bindings == old(bindings) && Hovered(bindings, e)
      ensures resolved == ResolveCalls(old(actions), old(bindings), old(LastHover(e.target)), e, false, false, NullId)
      ensures var f := FirstWithIdent(old(actions), Id(e));
              handled ==
                (f != null && old(f.active) &&
                 var v := old(f.View()).(layerX := e.layerX, layerY := e.layerY);
                 MoveHandled(f, v, if old(f.multi) != null then old(f.multi.View()) else v, e))
      ensures var f := FirstWithIdent(old(actions), Id(e));
              f == null || !old(f.active) ==>
                !handled && dispatched == [] && forall a :: a in Known && a != f ==> unchanged(a)
      ensures var f := FirstWithIdent(old(actions), Id(e));
              f != null && !old(f.active) ==> f.View() == old(f.View()).(layerX := e.layerX, layerY := e.layerY)
      ensures var f := FirstWithIdent(old(actions), Id(e));
              f != null && old(f.active) ==>
                f.MovedTo(e) &&
                f.View() == Accounted(Refreshed(old(f.View()), e), e, f.startX, f.startY).(active := f.active, distanceSeeded := f.distanceSeeded) &&
                (old(f.multi) == null ==> f.distanceSeeded == old(f.distanceSeeded)) &&
                (old(f.multi) != null ==>
                   var first := if f.second then old(f.multi) else f;
                   first.distanceSeeded == old(first.distanceSeeded)) &&
                forall a :: a in Known && a != f && a != old(f.multi) ==> unchanged(a)
      ensures var f := FirstWithIdent(old(actions), Id(e));
              f != null && old(f.active) && old(f.multi) == null ==>
                var h := f.binding.handlers;
                var call := Invoke(if Move2 in h then Move2 else if f.totalY > f.totalX then TryMove else Move, OnAction(f.identifier));
                if Move2 in h then
                  dispatched == [call] && handled == !e.reply && f.active == !e.reply
                else if f.totalY > f.totalX then
                  dispatched == (if TryMove in h then [call] else []) &&
                  handled == (TryMove in h && e.reply) && f.active == (TryMove !in h || e.reply)
                else
                  dispatched == (if Move in h then [call] else []) &&
                  handled && f.active == !(Move in h && e.reply)
      ensures var f := FirstWithIdent(old(actions), Id(e));
              f != null && old(f.active) && old(f.multi) != null ==>
                var p := old(f.multi);
                f.active && p.View() == old(p.View()).(distanceSeeded := p.distanceSeeded) &&
                PairMoved(f.binding.handlers, if f.second then p else f, if f.second then f else p,
                          if f.second then old(f.distanceSeeded) else old(p.distanceSeeded), handled, dispatched)
    {
      var action;
      action, resolved := Lookup(e);
      handled, dispatched := MoveStep(action, e);
    }

    /** `onMove` after `getAction`: nothing without a live active action, else `MoveAction`. */
    method MoveStep(f: Action?, e: Contact) returns (handled: bool, dispatched: seq<Call>)
      requires Valid() && (f != null ==> f in actions)
      modifies Known
      ensures Valid()
      ensures handled ==
                (f != null && old(f.active) &&
                 MoveHandled(f, old(f.View()), if old(f.multi) != null then old(f.multi.View()) else old(f.View()), e))
      ensures f == null || !old(f.active) ==> !handled && dispatched == [] && forall a :: a in Known ==> unchanged(a)
      ensures f != null && old(f.active) ==>
                f.MovedTo(e) &&
                f.View() == Accounted(old(f.View()), e, f.startX, f.startY).(active := f.active, distanceSeeded := f.distanceSeeded) &&
                (old(f.multi) == null ==> f.distanceSeeded == old(f.distanceSeeded)) &&
                (old(f.multi) != null ==>
                   var first := if f.second then old(f.multi) else f;
                   first.distanceSeeded == old(first.distanceSeeded)) &&
                forall a :: a in Known && a != f && a != old(f.multi) ==> unchanged(a)
      ensures f != null && old(f.active) && old(f.multi) == null ==>
                var h := f.binding.handlers;
                var call := Invoke(if Move2 in h then Move2 else if f.totalY > f.totalX then TryMove else Move, OnAction(f.identifier));
                if Move2 in h then
                  dispatched == [call] && handled == !e.reply && f.active == !e.reply
                else if f.totalY > f.totalX then
                  dispatched == (if TryMove in h then [call] else []) &&
                  handled == (TryMove in h && e.reply) && f.active == (TryMove !in h || e.reply)
                else
                  dispatched == (if Move in h then [call] else []) &&
                  handled && f.active == !(Move in h && e.reply)
      ensures f != null && old(f.active) && old(f.multi) != null ==>
                var p := old(f.multi);
                f.active && p.View() == old(p.View()).(distanceSeeded := p.distanceSeeded) &&
                PairMoved(f.binding.handlers, if f.second then p else f, if f.second then f else p,
                          if f.second then old(f.distanceSeeded) else old(p.distanceSeeded), handled, dispatched)
    {
      handled, dispatched := false, [];
      if f == null || !f.active {
        return;
      }
      handled, dispatched := MoveAction(f, e);
    }

    /**
     * `getAction` as `onMove` and `onWheel` call it, neither creating nor
     * stopping: the action with the record's identifier, if any, with its
     * layer coordinates refreshed.
     */
    method Lookup(e: Contact) returns (r: Action?, calls: seq<Call>)
      requires Valid()
      modifies this`actions, this`Known, Known, bindings
      ensures Valid()
      ensures actions == old(actions) && Known == old(Known)
      ensures bindings == old(bindings) && Hovered(bindings, e)
      ensures calls == ResolveCalls(old(actions), old(bindings), old(LastHover(e.target)), e, false, false, NullId)
      ensures r == FirstWithIdent(old(actions), Id(e))
      ensures r != null ==> r in actions && r.View() == old(r.View()).(layerX := e.layerX, layerY := e.layerY)
      ensures r != null ==>
                r.layerX == e.layerX && r.layerY == e.layerY &&
                unchanged(r`multi, r`second, r`active, r`totalX, r`totalY, r`lastX, r`lastY, r`diffX, r`diffY,
                          r`dx, r`dy, r`wheel, r`userData, r`distanceSeeded)
      ensures r != null && r.multi != null ==> r.multi != r && r.multi.View() == old(r.multi.View())
      ensures forall a :: a in Known && a != r ==> unchanged(a)
    {
      r, calls := GetAction(e, false, false, NullId);
    }

    /** `onMove` on a live active action: accounting, then the pinch/rotate branch or the classification. */
    method MoveAction(action: Action, e: Contact) returns (handled: bool, dispatched: seq<Call>)
      requires Valid() && action in actions && action.active
      modifies action, action.multi
      ensures Valid()
      ensures action.MovedTo(e)
      ensures forall a :: a in Known && a != action && a != old(action.multi) ==> unchanged(a)
      ensures action.View() == Accounted(old(action.View()), e, action.startX, action.startY).(active := action.active, distanceSeeded := action.distanceSeeded)
      ensures old(action.multi) == null ==> action.distanceSeeded == old(action.distanceSeeded)
      ensures old(action.multi) != null ==>
                var first := if action.second then old(action.multi) else action;
                first.distanceSeeded == old(first.distanceSeeded)
      ensures old(action.multi) != null ==>
                var p := old(action.multi);
                p.View() == old(p.View()).(distanceSeeded := p.distanceSeeded)
      ensures handled == MoveHandled(action, old(action.View()),
                                     if old(action.multi) != null then old(action.multi.View()) else old(action.View()), e)
      ensures old(action.multi) == null ==>
                var h := action.binding.handlers;
                var call := Invoke(if Move2 in h then Move2 else if action.totalY > action.totalX then TryMove else Move,
                                   OnAction(action.identifier));
                if Move2 in h then
                  dispatched == [call] && handled == !e.reply && action.active == !e.reply
                else if action.totalY > action.totalX then
                  dispatched == (if TryMove in h then [call] else []) &&
                  handled == (TryMove in h && e.reply) && action.active == (TryMove !in h || e.reply)
                else
                  dispatched == (if Move in h then [call] else []) &&
                  handled && action.active == !(Move in h && e.reply)
      ensures old(action.multi) != null ==>
                var p := old(action.multi);
                action.active &&
                PairMoved(action.binding.handlers, if action.second then p else action, if action.second then action else p,
                          if action.second then old(action.distanceSeeded) else old(p.distanceSeeded), handled, dispatched)
    {
      Account(action, e);
      if action.multi != null {
        handled, dispatched := PairedMove(action);
      } else {
        handled, dispatched := Classify(action, e);
      }
    }

    /**
     * The classification of an unpaired move, on the accounted totals:
     * `move2` when registered (a truthy reply ends the action), else
     * `try_move` for a mostly vertical travel (a falsy reply or no handler
     * ends it), else `move` (a truthy reply ends it).
     */
    method Classify(action: Action, e: Contact) returns (handled: bool, dispatched: seq<Call>)
      requires Valid() && action in actions && action.active && action.multi == null
      modifies action`active
      ensures Valid()
      ensures var h := action.binding.handlers;
              var call := Invoke(if Move2 in h then Move2 else if action.totalY > action.totalX then TryMove else Move,
                                 OnAction(action.identifier));
              if Move2 in h then
                dispatched == [call] && handled == !e.reply && action.active == !e.reply
              else if action.totalY > action.totalX then
                dispatched == (if TryMove in h then [call] else []) &&
                handled == (TryMove in h && e.reply) && action.active == (TryMove !in h || e.reply)
              else
                dispatched == (if Move in h then [call] else []) &&
                handled && action.active == !(Move in h && e.reply)
    {
      handled, dispatched := false, [];
      var h := action.binding.handlers;
      if Move2 in h {
        dispatched := [Invoke(Move2, OnAction(action.identifier))];
        if !e.reply {
          return true, dispatched;
        } else {
          action.active := false;
        }
      } else if action.totalY > action.totalX {
        if TryMove in h {
          dispatched := [Invoke(TryMove, OnAction(action.identifier))];
          if e.reply {
            return true, dispatched;
          } else {
            action.active := false;
          }
        }
      } else {
        if Move in h {
          dispatched := [Invoke(Move, OnAction(action.identifier))];
          if e.reply {
            action.active := false;
          }
        }
        return true, dispatched;
      }
    }

    /** The displacement accounting of `onMove`: `dx`, the totals, `last` and `diff`. */
    method Account(action: Action, e: Contact)
      requires Valid() && action in actions
      modifies action`dx, action`dy, action`totalX, action`totalY, action`lastX, action`lastY, action`diffX, action`diffY
      ensures Valid()
      ensures action.MovedTo(e) && action.View() == Accounted(old(action.View()), e, action.startX, action.startY)
      ensures action.totalX >= old(action.totalX) && action.totalY >= old(action.totalY)
    {
      action.MoveTo(e);
      forall a | a in actions
        ensures a.Tracked()
      {
        if a != action {
          assert old(a.Tracked());
        }
      }
    }

    /**
     * The outcome of the pinch/rotate branch for the moved action `f`, with
     * `a` the first and `b` the second action of its pair, and `seeded`
     * whether the baseline distance was recorded before the sample: with
     * `scale` registered, a zero distance or an unrecorded baseline ends the branch
     * unhandled (the first non-zero sample records the baseline); otherwise
     * `scale` then `rotate` are called on `a`, as registered, and the move
     * is handled.
     */
    predicate PairMoved(h: Handlers, a: Action, b: Action, seeded: bool, handled: bool, dispatched: seq<Call>)
      reads a, b
    {
      var coincide := a.lastX == b.lastX && a.lastY == b.lastY;
      var seeding := Scale in h && !coincide && !seeded;
      handled == !(Scale in h && (coincide || !seeded)) &&
      b.distanceSeeded == (seeded || seeding) &&
      dispatched == (if !handled then []
                     else (if Scale in h then [Invoke(Scale, OnAction(a.identifier))] else []) +
                          (if Rotate in h then [Invoke(Rotate, OnAction(a.identifier))] else []))
    }

    /** The pinch/rotate branch of `onMove`, without its numeric values. */
    method PairedMove(action: Action) returns (handled: bool, dispatched: seq<Call>)
      requires Valid() && action in Known && action.multi != null
      modifies action`distanceSeeded, action.multi`distanceSeeded
      ensures Valid()
      ensures var a := if action.second then action.multi else action;
              var b := if action.second then action else action.multi;
              PairMoved(action.binding.handlers, a, b, old(b.distanceSeeded), handled, dispatched)
      ensures forall x :: x in Known && x != (if action.second then action else action.multi) ==> unchanged(x)
    {
      var a, b := action, action.multi;
      if action.second {
        a, b := action.multi, action;
      }
      dispatched := [];
      if Scale in action.binding.handlers {
        if a.lastX == b.lastX && a.lastY == b.lastY {
          return false, [];
        }
        if !b.distanceSeeded {
          b.distanceSeeded := true;
          return false, [];
        }
        dispatched := [Invoke(Scale, OnAction(a.identifier))];
      }
      if Rotate in action.binding.handlers {
        dispatched := dispatched + [Invoke(Rotate, OnAction(a.identifier))];
      }
      handled := true;
    }

    /**
     * The per-contact body of `onWheel`: on a live active action, records
     * the clamped wheel direction and calls `wheel`; a falsy reply prevents
     * default handling.
     */
    method WheelContact(e: Contact) returns (prevent: bool, resolved: seq<Call>, dispatched: seq<Call>)
      requires Valid()
      modifies this`actions, this`Known, Known, bindings
      ensures Valid()
      ensures actions == old(actions) && Known == old(Known)
      ensures bindings == old(bindings) && Hovered(bindings, e)
      ensures resolved == ResolveCalls(old(actions), old(bindings), old(LastHover(e.target)), e, false, false, NullId)
      ensures var f := FirstWithIdent(old(actions), Id(e));
              prevent == (f != null && old(f.active) && Wheel in f.binding.handlers && !e.reply)
      ensures var f := FirstWithIdent(old(actions), Id(e));
              f != null ==>
                f.View() == old(f.View()).(layerX := e.layerX, layerY := e.layerY,
                                           wheel := if old(f.active) then ClampWheel(WheelDelta(e)) else old(f.wheel))
      ensures var f := FirstWithIdent(old(actions), Id(e));
              dispatched == if f != null && old(f.active) && Wheel in f.binding.handlers
                            then [Invoke(Wheel, OnAction(f.identifier))] else []
      ensures forall a :: a in Known && a != FirstWithIdent(old(actions), Id(e)) ==> unchanged(a)
    {
      prevent, dispatched := false, [];
      var action;
      action, resolved := Lookup(e);
      if action == null || !action.active {
        return;
      }
      prevent, dispatched := WheelAction(action, e);
    }

    /** `onWheel` on a live active action: the clamped direction, then `wheel`. */
    method WheelAction(action: Action, e: Contact) returns (prevent: bool, dispatched: seq<Call>)
      requires Valid() && action in actions
      modifies action`wheel
      ensures Valid()
      ensures action.wheel == ClampWheel(WheelDelta(e))
      ensures dispatched == if Wheel in action.binding.handlers then [Invoke(Wheel, OnAction(action.identifier))] else []
      ensures prevent == (Wheel in action.binding.handlers && !e.reply)
    {
      action.wheel := ClampWheel(WheelDelta(e));
      assert action.Tracked();
      prevent, dispatched := false, [];
      if Wheel in action.binding.handlers {
        dispatched := [Invoke(Wheel, OnAction(action.identifier))];
        if !e.reply {
          prevent := true;
        }
      }
    }

    /**
     * The per-contact body of `onOver`: looks up the action keyed
     * 'mouseover' (stopping it if the pointer left its element); `hover` is
     * called on it, a falsy reply preventing default handling, and without
     * a `hover` handler the action is removed.
     */
    method OverContact(e: Contact) returns (prevent: bool, resolved: seq<Call>, dispatched: seq<Call>)
      requires Valid()
      modifies this`actions, this`Known, Known, bindings
      ensures Valid()
      ensures Known == old(Known)
      ensures forall a :: a in Known && a != FirstWithIdent(old(actions), MouseOver) ==> unchanged(a)
      ensures bindings == old(bindings) && Hovered(bindings, e)
      ensures resolved == ResolveCalls(old(actions), old(bindings), old(LastHover(e.target)), e, false, true, MouseOver)
      ensures var f := FirstWithIdent(old(actions), MouseOver);
              f != null ==>
                f.View() == if f.binding == FirstBinding(old(bindings), e.target)
                            then old(f.View()).(layerX := e.layerX, layerY := e.layerY) else old(f.View())
      ensures var f := FirstWithIdent(old(actions), MouseOver);
              var b := FirstBinding(old(bindings), e.target);
              if f == null then
                actions == old(actions) && !prevent && dispatched == []
              else if f.binding != b then
                actions == Without(old(actions), f) && !prevent && dispatched == []
              else if Hover in f.binding.handlers then
                actions == old(actions) && prevent == !e.reply && dispatched == [Invoke(Hover, OnAction(MouseOver))]
              else
                actions == Without(old(actions), f) && !prevent && dispatched == []
    {
      prevent, dispatched := false, [];
      var action;
      action, resolved := GetAction(e, false, true, MouseOver);
      if action == null {
        return;
      }
      if Hover in action.binding.handlers {
        dispatched := [Invoke(Hover, OnAction(action.identifier))];
        if !e.reply {
          prevent := true;
        }
      } else {
        RemoveAction(action);
      }
    }

    /**
     * The per-contact body of `onCancel`: the resolved action is made
     * inactive, `cancel` and `finally` are called, and it is removed.
     */
    method CancelContact(e: Contact) returns (resolved: seq<Call>, dispatched: seq<Call>)
      requires Valid()
      modifies this`actions, this`Known, Known, bindings
      ensures Valid()
      ensures Known == old(Known)
      ensures forall a :: a in Known && a != FirstWithIdent(old(actions), Id(e)) ==> unchanged(a)
      ensures bindings == old(bindings) && Hovered(bindings, e)
      ensures resolved == ResolveCalls(old(actions), old(bindings), old(LastHover(e.target)), e, false, true, NullId)
      ensures var f := FirstWithIdent(old(actions), Id(e));
              var b := FirstBinding(old(bindings), e.target);
              actions == (if f == null then old(actions) else Without(old(actions), f)) &&
              (f != null ==>
                 f.View() == if f.binding == b
                             then old(f.View()).(layerX := e.layerX, layerY := e.layerY, active := false)
                             else old(f.View())) &&
              dispatched == if f != null && f.binding == b then
                              (if Cancel in f.binding.handlers then [Invoke(Cancel, OnAction(f.identifier))] else []) +
                              (if Finally in f.binding.handlers then [Invoke(Finally, OnAction(f.identifier))] else [])
                            else []
    {
      ghost var f, b := FirstWithIdent(actions, Id(e)), FirstBinding(bindings, e.target);
      dispatched := [];
      var action;
      action, resolved := GetAction(e, false, true, NullId);
      if action == null {
        assert f != null ==> f.binding != b && f.View() == old(f.View());
        return;
      }
      assert action == f && f.binding == b;
      dispatched := CancelAction(action);
    }

    /** `onCancel` on the resolved action. */
    method CancelAction(action: Action) returns (dispatched: seq<Call>)
      requires Valid() && action in actions
      modifies this`actions, action`active
      ensures Valid()
      ensures actions == Without(old(actions), action)
      ensures !action.active
      ensures dispatched ==
                (if Cancel in action.binding.handlers then [Invoke(Cancel, OnAction(action.identifier))] else []) +
                (if Finally in action.binding.handlers then [Invoke(Finally, OnAction(action.identifier))] else [])
    {
      dispatched := [];
      action.active := false;
      if Cancel in action.binding.handlers {
        dispatched := dispatched + [Invoke(Cancel, OnAction(action.identifier))];
      }
      if Finally in action.binding.handlers {
        dispatched := dispatched + [Invoke(Finally, OnAction(action.identifier))];
      }
      assert Valid();
      RemoveAction(action);
    }

    /**
     * The per-contact body of `onEnd`: the resolved action is always
     * removed; if it was still active, `click` is called when both travelled
     * totals are below 10, then `end` and `finally`.
     */
    method EndContact(e: Contact) returns (resolved: seq<Call>, dispatched: seq<Call>)
      requires Valid()
      modifies this`actions, this`Known, Known, bindings
      ensures Valid()
      ensures Known == old(Known)
      ensures forall a :: a in Known && a != FirstWithIdent(old(actions), Id(e)) ==> unchanged(a)
      ensures bindings == old(bindings) && Hovered(bindings, e)
      ensures resolved == ResolveCalls(old(actions), old(bindings), old(LastHover(e.target)), e, false, true, NullId)
      ensures var f := FirstWithIdent(old(actions), Id(e));
              var b := FirstBinding(old(bindings), e.target);
              actions == (if f == null then old(actions) else Without(old(actions), f)) &&
              (f != null ==>
                 f.View() == if f.binding == b then old(f.View()).(layerX := e.layerX, layerY := e.layerY) else old(f.View())) &&
              dispatched == if f != null && f.binding == b then EndCalls(f) else []
    {
      dispatched := [];
      ghost var f := FirstWithIdent(actions, Id(e));
      var action;
      action, resolved := GetAction(e, false, true, NullId);
      if action == null {
        return;
      }
      assert action == f && f.identifier == Id(e);
      dispatched := EndAction(action);
    }

    /** `onEnd` on the resolved action. */
    method EndAction(action: Action) returns (dispatched: seq<Call>)
      requires Valid() && action in actions
      modifies this`actions
      ensures Valid()
      ensures actions == Without(old(actions), action)
      ensures dispatched == EndCalls(action)
      ensures Invoke(Click, OnAction(action.identifier)) in dispatched ==>
                Abs(action.lastX - action.startX) < 10 && Abs(action.lastY - action.startY) < 10
    {
      dispatched := EndCalls(action);
      EndCallsClick(action);
      RemoveAction(action);
    }

    /**
     * The callback an entry point passes to `eventHelper`, run on one record:
     * what it returns (truthy or not) and whether it called `preventDefault`
     * itself. Only `onStart` and `onMove` return a truthy value; only `onWheel`
     * and `onOver` prevent the default from inside the callback.
     */
    method Callback(kind: Entry, e: Contact) returns (result: bool, prevent: bool, calls: seq<Call>)
      requires Valid()
      modifies this`actions, this`Known, Known, bindings
      ensures Valid()
      ensures old(Known) <= Known && fresh(Known - old(Known))
      ensures bindings == old(bindings) && Hovered(bindings, e)
      ensures result == kind.Result(old(Snap()), e)
      ensures prevent == kind.Prevents(old(Snap()), e)
      ensures ResolveCalls(old(actions), old(bindings), old(LastHover(e.target)), e, kind.Creates(), kind.Stops(), kind.Given()) <= calls
      ensures Transition(kind, old(Snap()), e, Snap())
    {
      SnapTables();
      result, prevent := false, false;
      match kind {
        case StartEntry =>
          result, calls := StartCallback(e);
        case MoveEntry =>
          result, calls := MoveCallback(e);
        case WheelEntry =>
          prevent, calls := WheelCallback(e);
        case OverEntry =>
          prevent, calls := OverCallback(e);
        case CancelEntry =>
          calls := CancelCallback(e);
        case EndEntry =>
          calls := EndCallback(e);
      }
    }

    /** `onStart`'s callback: true exactly when the record produced an action, as `StartResult` says of the state it runs in. */
    method StartCallback(e: Contact) returns (result: bool, calls: seq<Call>)
      requires Valid()
      modifies this`actions, this`Known, Known, bindings
      ensures Valid()
      ensures old(Known) <= Known && fresh(Known - old(Known))
      ensures bindings == old(bindings) && Hovered(bindings, e)
      ensures result == StartResult(old(Snap()), e)
      ensures ResolveCalls(old(actions), old(bindings), old(LastHover(e.target)), e, true, false, NullId) <= calls
      ensures Transition(StartEntry, old(Snap()), e, Snap())
    {
      SnapTables();
      ghost var s := Snap();
      ghost var f := FirstWithIdent(actions, Id(e));
      ghost var b := FirstBinding(bindings, e.target);
      ghost var q: Action? := null;
      if f != null {
        q := f.multi;
      } else if b != null {
        q := FirstPartner(actions, e.target, CreationSelection(b.handlers, e));
      }
      SnapView(f);
      SnapView(q);
      var resolved, dispatched;
      ghost var a, p;
      result, resolved, dispatched, a, p := StartContact(e);
      calls := resolved + dispatched;
      SnapTables();
      ghost var t := Snap();
      SnapView(a);
      SnapView(p);
      if f != null {
        ghost var data := if Start in f.binding.handlers then e.startReply else s.views[f].userData;
        assert KeepsOthers(s, t, f, q);
        assert t.views[f] == Refreshed(s.views[f], e).(userData := data);
        assert q != null ==> t.views[q] == s.views[q].(userData := if s.views[f].second then data else s.views[q].userData);
      } else if a == null {
        assert KeepsOthers(s, t, null, null);
      } else {
        ghost var data := if Start in b.handlers then e.startReply else Null;
        assert a !in s.views && t.actions[|s.actions|] == a;
        forall x | x in s.views
          ensures x in t.views && (x != q ==> t.views[x] == s.views[x])
        {
          assert x in old(Known) && x != a;
        }
        assert t.views[a] == ActionView(q, q != null, true, e.layerX, e.layerY, 0, 0, e.clientX, e.clientY, 0, 0, 0, 0, 0, data, false);
        assert q != null ==> t.views[q] == s.views[q].(multi := a, userData := data);
      }
    }

    /** `onMove`'s callback: whether it returns a truthy value, as `MoveResult` says of the state it runs in. */
    method MoveCallback(e: Contact) returns (result: bool, calls: seq<Call>)
      requires Valid()
      modifies this`actions, this`Known, Known, bindings
      ensures Valid()
      ensures actions == old(actions) && Known == old(Known)
      ensures bindings == old(bindings) && Hovered(bindings, e)
      ensures result == MoveResult(old(Snap()), e)
      ensures ResolveCalls(old(actions), old(bindings), old(LastHover(e.target)), e, false, false, NullId) <= calls
      ensures Transition(MoveEntry, old(Snap()), e, Snap())
    {
      SnapTables();
      ghost var s, f := Snap(), FirstWithIdent(actions, Id(e));
      ghost var p := if f != null then f.multi else null;
      SnapView(f);
      if f != null {
        SnapView(f.multi);
        MoveHandledIgnoresLayer(f, f.View(), if f.multi != null then f.multi.View() else f.View(), e, e.layerX, e.layerY);
      }
      var resolved, dispatched;
      result, resolved, dispatched := MoveContact(e);
      calls := resolved + dispatched;
      SnapTables();
      ghost var t := Snap();
      SnapView(f);
      SnapView(p);
      if f == null {
        assert KeepsOthers(s, t, null, null);
      } else if !s.views[f].active {
        assert KeepsOthers(s, t, f, null);
      } else {
        assert KeepsOthers(s, t, f, p);
      }
    }

    /** `onWheel`'s callback: whether it prevents the default itself, as `WheelPrevents` says of the state it runs in. */
    method WheelCallback(e: Contact) returns (prevent: bool, calls: seq<Call>)
      requires Valid()
      modifies this`actions, this`Known, Known, bindings
      ensures Valid()
      ensures actions == old(actions) && Known == old(Known)
      ensures bindings == old(bindings) && Hovered(bindings, e)
      ensures prevent == WheelPrevents(old(Snap()), e)
      ensures ResolveCalls(old(actions), old(bindings), old(LastHover(e.target)), e, false, false, NullId) <= calls
      ensures Transition(WheelEntry, old(Snap()), e, Snap())
    {
      SnapTables();
      ghost var s, f := Snap(), FirstWithIdent(actions, Id(e));
      SnapView(f);
      var resolved, dispatched;
      prevent, resolved, dispatched := WheelContact(e);
      calls := resolved + dispatched;
      SnapTables();
      ghost var t := Snap();
      assert KeepsOthers(s, t, f, null);
      assert f != null ==> t.views[f] == Refreshed(s.views[f], e).(wheel := if s.views[f].active then ClampWheel(WheelDelta(e)) else s.views[f].wheel);
    }

    /** `onOver`'s callback: whether it prevents the default itself, as `OverPrevents` says of the state it runs in. */
    method OverCallback(e: Contact) returns (prevent: bool, calls: seq<Call>)
      requires Valid()
      modifies this`actions, this`Known, Known, bindings
      ensures Valid()
      ensures Known == old(Known)
      ensures bindings == old(bindings) && Hovered(bindings, e)
      ensures prevent == OverPrevents(old(Snap()), e)
      ensures ResolveCalls(old(actions), old(bindings), old(LastHover(e.target)), e, false, true, MouseOver) <= calls
      ensures Transition(OverEntry, old(Snap()), e, Snap())
    {
      SnapTables();
      ghost var s, f, b := Snap(), FirstWithIdent(actions, MouseOver), FirstBinding(bindings, e.target);
      SnapView(f);
      var resolved, dispatched;
      prevent, resolved, dispatched := OverContact(e);
      calls := resolved + dispatched;
      SnapTables();
      ghost var t := Snap();
      assert KeepsOthers(s, t, f, null);
      assert t.actions == if f == null || (f.binding == b && Hover in f.binding.handlers) then s.actions else Without(s.actions, f);
      assert f != null ==> t.views[f] == if f.binding == b then Refreshed(s.views[f], e) else s.views[f];
    }

    /** `onCancel`'s callback, with its transition. */
    method CancelCallback(e: Contact) returns (calls: seq<Call>)
      requires Valid()
      modifies this`actions, this`Known, Known, bindings
      ensures Valid()
      ensures Known == old(Known)
      ensures bindings == old(bindings) && Hovered(bindings, e)
      ensures ResolveCalls(old(actions), old(bindings), old(LastHover(e.target)), e, false, true, NullId) <= calls
      ensures Transition(CancelEntry, old(Snap()), e, Snap())
    {
      SnapTables();
      ghost var s, f, b := Snap(), FirstWithIdent(actions, Id(e)), FirstBinding(bindings, e.target);
      SnapView(f);
      var resolved, dispatched;
      resolved, dispatched := CancelContact(e);
      calls := resolved + dispatched;
      assert calls[..|resolved|] == resolved;
      SnapTables();
      ghost var t := Snap();
      assert KeepsOthers(s, t, f, null);
      assert t.actions == if f == null then s.actions else Without(s.actions, f);
      assert f != null ==> t.views[f] == if f.binding != b then s.views[f] else Refreshed(s.views[f], e).(active := s.views[f].active && !true);
    }

    /** `onEnd`'s callback, with its transition. */
    method EndCallback(e: Contact) returns (calls: seq<Call>)
      requires Valid()
      modifies this`actions, this`Known, Known, bindings
      ensures Valid()
      ensures Known == old(Known)
      ensures bindings == old(bindings) && Hovered(bindings, e)
      ensures ResolveCalls(old(actions), old(bindings), old(LastHover(e.target)), e, false, true, NullId) <= calls
      ensures Transition(EndEntry, old(Snap()), e, Snap())
    {
      SnapTables();
      ghost var s, f, b := Snap(), FirstWithIdent(actions, Id(e)), FirstBinding(bindings, e.target);
      SnapView(f);
      var resolved, dispatched;
      resolved, dispatched := EndContact(e);
      calls := resolved + dispatched;
      assert calls[..|resolved|] == resolved;
      SnapTables();
      ghost var t := Snap();
      assert KeepsOthers(s, t, f, null);
      assert t.actions == if f == null then s.actions else Without(s.actions, f);
      assert f != null ==> t.views[f] == if f.binding != b then s.views[f] else Refreshed(s.views[f], e).(active := s.views[f].active && !false);
    }

    /**
     * `eventHelper`: runs the callback on every changed touch, or on the
     * event itself when there are none, and reports whether any run returned
     * a truthy value; `prevented` collects the callbacks' own
     * `preventDefault` calls. `snaps[k]` is the state the `k`-th record is
     * processed in: the first is the state on entry, the last the state on
     * exit.
     */
    method EventHelper(kind: Entry, ev: RawEvent)
      returns (result: bool, prevented: bool, calls: seq<Call>,
               ghost snaps: seq<Snapshot>, ghost results: seq<bool>, ghost prevents: seq<bool>)
      requires Valid()
      modifies this`actions, this`Known, Known, bindings
      ensures Valid()
      ensures old(Known) <= Known && fresh(Known - old(Known))
      ensures Reported(kind, Contacts(ev), snaps, results, prevents)
      ensures snaps[0] == old(Snap()) && snaps[|snaps| - 1] == Snap()
      ensures result <==> true in results
      ensures prevented <==> true in prevents
    {
      var cs := Contacts(ev);
      result, prevented, calls := false, false, [];
      snaps, results, prevents := [Snap()], [], [];
      var i := 0;
      while i < |cs|
        invariant 0 <= i <= |cs|
        invariant Valid()
        invariant old(Known) <= Known && fresh(Known - old(Known))
        invariant |snaps| == i + 1 && snaps[0] == old(Snap()) && snaps[i] == Snap()
        invariant Reported(kind, cs[..i], snaps, results, prevents)
        invariant result <==> true in results
        invariant prevented <==> true in prevents
      {
        var r, p, c;
        r, p, c, snaps, results, prevents := Record(kind, cs, i, snaps, results, prevents);
        result, prevented, calls := result || r, prevented || p, calls + c;
        i := i + 1;
      }
      assert cs[..i] == cs;
    }

    /** One run of the callback on the `i`-th record, in the state the records before it left, appended to their report. */
    method Record(kind: Entry, cs: seq<Contact>, i: nat, ghost snaps: seq<Snapshot>, ghost results: seq<bool>, ghost prevents: seq<bool>)
      returns (r: bool, p: bool, calls: seq<Call>, ghost snaps': seq<Snapshot>, ghost results': seq<bool>, ghost prevents': seq<bool>)
      requires Valid() && i < |cs| && |snaps| == i + 1 && snaps[i] == Snap()
      requires Reported(kind, cs[..i], snaps, results, prevents)
      modifies this`actions, this`Known, Known, bindings
      ensures Valid()
      ensures old(Known) <= Known && fresh(Known - old(Known))
      ensures snaps' == snaps + [Snap()] && results' == results + [r] && prevents' == prevents + [p]
      ensures |snaps'| == i + 2 && snaps'[0] == snaps[0] && snaps'[i + 1] == Snap()
      ensures Reported(kind, cs[..i + 1], snaps', results', prevents')
    {
      r, p, calls := Callback(kind, cs[i]);
      ReportedExtend(kind, cs, i, snaps, results, prevents, Snap(), r, p);
      snaps', results', prevents' := snaps + [Snap()], results + [r], prevents + [p];
    }

    /**
     * An entry point on one raw event: whether the event's default action is
     * prevented, and every handler call made. `onStart` and `onMove` prevent
     * it when some callback returned a truthy value; `onWheel` and `onOver`
     * when some callback prevented it itself; `onCancel` and `onEnd` never.
     * `snaps[k]` is the state the `k`-th record is processed in and
     * `snaps[k + 1]` the state it leaves; the last is the state on exit.
     */
    method Handle(kind: Entry, ev: RawEvent) returns (prevented: bool, calls: seq<Call>, ghost snaps: seq<Snapshot>)
      requires Valid()
      modifies this`actions, this`Known, Known, bindings
      ensures Valid()
      ensures old(Known) <= Known && fresh(Known - old(Known))
      ensures |snaps| == |Contacts(ev)| + 1 && snaps[0] == old(Snap()) && snaps[|Contacts(ev)|] == Snap()
      ensures forall k :: 0 <= k < |snaps| ==> snaps[k].Complete()
      ensures forall k :: 0 <= k < |Contacts(ev)| ==> Transition(kind, snaps[k], Contacts(ev)[k], snaps[k + 1])
      ensures kind.ReturnsResult() ==>
                (prevented <==> exists k :: 0 <= k < |Contacts(ev)| && kind.Result(snaps[k], Contacts(ev)[k]))
      ensures !kind.ReturnsResult() ==>
                (prevented <==> exists k :: 0 <= k < |Contacts(ev)| && kind.Prevents(snaps[k], Contacts(ev)[k]))
      ensures ev.changedTouches == [] && kind.ReturnsResult() ==> (prevented <==> kind.Result(old(Snap()), ev.pointer))
      ensures ev.changedTouches == [] && !kind.ReturnsResult() ==> (prevented <==> kind.Prevents(old(Snap()), ev.pointer))
      ensures kind == CancelEntry || kind == EndEntry ==> !prevented
    {
      var result, inside;
      ghost var results, prevents;
      result, inside, calls, snaps, results, prevents := EventHelper(kind, ev);
      ReportedAny(kind, Contacts(ev), snaps, results, prevents);
      SnapTables();
      prevented := if kind.ReturnsResult() then result else inside;
    }

    /** `bind`: registers a new binding after all existing ones and returns its destructor. */
    method Bind(element: Element, handlers: Handlers) returns (d: Destructor)
      modifies this`bindings
      ensures fresh(d) && d.binding != null && fresh(d.binding)
      ensures d.binding.element == element && d.binding.handlers == handlers && d.binding.lastHover == Falsy
      ensures bindings == old(bindings) + [d.binding]
    {
      var b := new Binding(element, handlers);
      bindings := bindings + [b];
      d := new Destructor(b);
    }

    /**
     * `unbind`: removes the first binding registered for the element and
     * reports whether there was one. Live actions of that binding stay in
     * the table.
     */
    method Unbind(element: Element) returns (found: bool)
      modifies this`bindings
      ensures found <==> FirstBinding(old(bindings), element) != null
      ensures bindings == if found then Without(old(bindings), FirstBinding(old(bindings), element)) else old(bindings)
    {
      var i := 0;
      while i < |bindings|
        invariant 0 <= i <= |bindings|
        invariant bindings == old(bindings)
        invariant forall j :: 0 <= j < i ==> bindings[j].element != element
        invariant FirstBinding(bindings, element) == FirstBinding(bindings[i..], element)
      {
        assert bindings[i..][1..] == bindings[i + 1..];
        if bindings[i].element == element {
          var b := bindings[i];
          assert b !in bindings[..i];
          assert IndexOf(bindings, b) == i by { IndexOfFirst(bindings, b, i); }
          bindings := SpliceOne(bindings, i);
          return true;
        }
        i := i + 1;
      }
      return false;
    }

    /** Binding an element and running the destructor at once leaves the registry as it was. */
    method BindThenDestroy(element: Element, handlers: Handlers)
      modifies this`bindings
      ensures bindings == old(bindings)
    {
      var d := Bind(element, handlers);
      WithoutAppended(old(bindings), d.binding);
      d.Run(this);
    }
  }
}
