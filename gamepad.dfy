/**
 * The input routing of the gamepad window (update_gamepad_state): on every
 * poll each pressed controller button whose name has a control menu fires the
 * action its menu shows, through the if/elif chain; the left stick nudges the
 * imaging offset by 0.5e-6 when it is pushed past half way.
 */
module Gamepad {
  import opened Optional

  /** The buttons polled, in the order of button_states. */
  datatype Button = A | B | X | Y | Plus | Minus | Home | Capture | L | ZL | R | ZR

  function Buttons(): seq<Button> {
    [A, B, X, Y, Plus, Minus, Home, Capture, L, ZL, R, ZR]
  }

  /** The name a button is looked up by: getattr(self, f'{button}_menu'). */
  function Name(b: Button): string {
    match b
    case A => "A" case B => "B" case X => "X" case Y => "Y"
    case Plus => "Plus" case Minus => "Minus" case Home => "Home" case Capture => "Capture"
    case L => "L" case ZL => "ZL" case R => "R" case ZR => "ZR"
  }

  /** gamepad.get_button(i): the controller index each entry of button_states reads. */
  function PhysicalIndex(b: Button): nat {
    match b
    case A => 1 case B => 0 case X => 3 case Y => 2
    case Plus => 7 case Minus => 6 case Home => 10 case Capture => 10
    case L => 4 case ZL => 8 case R => 5 case ZR => 9
  }

  /** The actions the chain can call. */
  datatype Action = HCurve | DecreaseSetpoint | IncreaseSetpoint | Approach | Interact | Withdraw | StartStop | SelectItem

  /** function_dic's keys, in order: the items of every control menu. */
  function MenuItems(): seq<string> {
    ["H_curve", "decrease_setpoint", "increase_setpoint", "Aproach", "interact", "Withdraw", "startstop", "select"]
  }

  /**
   * setCurrentText on a combo box filled with the menu items: an item's text
   * selects it; any other text leaves the first item, "H_curve", selected.
   */
  function ComboText(text: string): (t: string)
    ensures t in MenuItems()
    ensures text in MenuItems() ==> t == text
    ensures text !in MenuItems() ==> t == MenuItems()[0]
  {
    if text in MenuItems() then text else MenuItems()[0]
  }

  /**
   * The menus as the window builds them, by create_control_menu: control
   * name to the text shown for its default.
   */
  function DefaultMenus(): map<string, string> {
    map["A" := ComboText("decrease_setpoint"), "B" := ComboText("increase_setpoint"),
        "X" := ComboText("Aproach"), "Y" := ComboText("startstop"),
        "LB" := ComboText("Map"), "RB" := ComboText("Withdraw"),
        "Start" := ComboText("interact"), "Select" := ComboText("Select")]
  }

  /** The controls create_control_menu is called for. */
  function ControlNames(): set<string> {
    {"A", "B", "X", "Y", "LB", "RB", "Start", "Select"}
  }

  /**
   * Menus the window can be in: one for each control it created, each
   * showing one of the items (the user can only pick items).
   */
  predicate WindowMenus(menus: map<string, string>) {
    && menus.Keys == ControlNames()
    && forall k :: k in menus ==> menus[k] in MenuItems()
  }

  /** The if/elif chain on currentText(); a text no branch names calls nothing. */
  function Dispatch(text: string): Option<Action> {
    if text == "H_curve" then Some(HCurve)
    else if text == "decrease_setpoint" then Some(DecreaseSetpoint)
    else if text == "increase_setpoint" then Some(IncreaseSetpoint)
    else if text == "Aproach" then Some(Approach)
    else if text == "interact" then Some(Interact)
    else if text == "Withdraw" then Some(Withdraw)
    else if text == "startstop" then Some(StartStop)
    else if text == "Select" then Some(SelectItem)
    else None
  }

  /** One call made by the poll: the button that caused it and the action called. */
  datatype Command = Command(button: Button, action: Action)

  /** What one button does on a poll, given the held state of every controller index. */
  function ButtonCommands(b: Button, menus: map<string, string>, held: nat -> bool): seq<Command> {
    if held(PhysicalIndex(b)) && Name(b) in menus then
      match Dispatch(menus[Name(b)])
      case Some(a) => [Command(b, a)]
      case None => []
    else []
  }

  /** The calls made for the buttons bs, in order. */
  function CommandsFor(bs: seq<Button>, menus: map<string, string>, held: nat -> bool): seq<Command> {
    if bs == [] then []
    else CommandsFor(bs[..|bs| - 1], menus, held) + ButtonCommands(bs[|bs| - 1], menus, held)
  }

  /** The calls one poll makes. */
  function Fired(menus: map<string, string>, held: nat -> bool): seq<Command> {
    CommandsFor(Buttons(), menus, held)
  }

  lemma CommandsForSnoc(bs: seq<Button>, i: int, menus: map<string, string>, held: nat -> bool)
    requires 0 <= i < |bs|
    ensures CommandsFor(bs[..i + 1], menus, held) == CommandsFor(bs[..i], menus, held) + ButtonCommands(bs[i], menus, held)
  {
    assert bs[..i + 1][..i] == bs[..i];
  }

  /**
   * A call is made exactly for a listed button that is held, has a menu, and
   * whose menu text the chain maps to that action.
   */
  lemma {:induction false} CommandsForMembers(bs: seq<Button>, menus: map<string, string>, held: nat -> bool, c: Command)
    ensures c in CommandsFor(bs, menus, held) <==>
      c.button in bs && held(PhysicalIndex(c.button)) && Name(c.button) in menus && Dispatch(menus[Name(c.button)]) == Some(c.action)
  {
    if bs != [] {
      var front, last := bs[..|bs| - 1], bs[|bs| - 1];
      CommandsForMembers(front, menus, held, c);
      assert bs == front + [last];
    }
  }

  /** The calls for a first stretch of the buttons come first among the calls for all of them. */
  lemma {:induction false} CommandsForPrefix(bs: seq<Button>, j: nat, menus: map<string, string>, held: nat -> bool)
    requires j <= |bs|
    ensures CommandsFor(bs[..j], menus, held) <= CommandsFor(bs, menus, held)
    decreases |bs|
  {
    if j < |bs| {
      var front := bs[..|bs| - 1];
      assert front[..j] == bs[..j];
      CommandsForPrefix(front, j, menus, held);
    } else {
      assert bs[..j] == bs;
    }
  }

  /**
   * The actions whose instrument calls are not inside a try: Aproach,
   * interact, Withdraw and startstop. The setpoint actions catch everything,
   * H_curve only starts a thread and select only prints.
   */
  predicate Unguarded(a: Action) {
    a == Approach || a == Interact || a == Withdraw || a == StartStop
  }

  /** A call that raises out of the poll, given which instrument calls fail on it. */
  predicate Raises(c: Command, fails: Action -> bool) {
    Unguarded(c.action) && fails(c.action)
  }

  predicate NoneRaise(cmds: seq<Command>, fails: Action -> bool) {
    forall i :: 0 <= i < |cmds| ==> !Raises(cmds[i], fails)
  }

  lemma NoneRaiseSnoc(before: seq<Command>, c: Command, fails: Action -> bool)
    requires NoneRaise(before, fails) && !Raises(c, fails)
    ensures NoneRaise(before + [c], fails)
  {
  }

  /**
   * How far a poll gets through the calls `all` it would make: a first
   * stretch of them, which either is all of them with none raising (the
   * poll completes and goes on to the stick and self.update()) or ends at
   * the first call that raises (the rest of the poll is skipped).
   */
  predicate PollOutcome(fired: seq<Command>, completed: bool, all: seq<Command>, fails: Action -> bool) {
    && fired <= all
    && (completed ==> fired == all && NoneRaise(fired, fails))
    && (!completed ==> fired != [] && Raises(fired[|fired| - 1], fails) && NoneRaise(fired[..|fired| - 1], fails))
  }

  /** When no call raises, the poll makes every call and completes. */
  lemma QuietPollFiresAll(fired: seq<Command>, completed: bool, all: seq<Command>, fails: Action -> bool)
    requires PollOutcome(fired, completed, all, fails) && NoneRaise(all, fails)
    ensures completed && fired == all
  {
  }

  /** No poll outcome stops before another: both run to the first raising call. */
  lemma OutcomeNoShorter(f1: seq<Command>, c1: bool, f2: seq<Command>, c2: bool, all: seq<Command>, fails: Action -> bool)
    requires PollOutcome(f1, c1, all, fails) && PollOutcome(f2, c2, all, fails)
    ensures |f2| <= |f1|
  {
  }

  /** A poll's outcome is determined: it stops at the first raising call and nowhere else. */
  lemma PollOutcomeUnique(f1: seq<Command>, c1: bool, f2: seq<Command>, c2: bool, all: seq<Command>, fails: Action -> bool)
    requires PollOutcome(f1, c1, all, fails) && PollOutcome(f2, c2, all, fails)
    ensures f1 == f2 && c1 == c2
  {
    OutcomeNoShorter(f1, c1, f2, c2, all, fails);
    OutcomeNoShorter(f2, c2, f1, c1, all, fails);
    assert f1 == all[..|f1|] == f2;
  }

  /**
   * The loop of update_gamepad_state over button_states. `fails` says which
   * instrument calls raise on this poll; an unguarded one that raises ends
   * update_gamepad_state there.
   */
  method PollButtons(menus: map<string, string>, held: nat -> bool, fails: Action -> bool) returns (fired: seq<Command>, completed: bool)
    ensures PollOutcome(fired, completed, Fired(menus, held), fails)
  {
    fired, completed := PollInOrder(Buttons(), menus, held, fails);
  }

  /**
   * One entry of button_states: a held button with a control menu calls what
   * the chain maps its menu text to.
   */
  method PollButton(b: Button, menus: map<string, string>, held: nat -> bool) returns (calls: seq<Command>)
    ensures calls == ButtonCommands(b, menus, held)
    ensures |calls| <= 1
  {
    calls := [];
    if held(PhysicalIndex(b)) && Name(b) in menus {
      var action := Dispatch(menus[Name(b)]);
      if action.Some? {
        calls := [Command(b, action.value)];
      }
    }
  }

  /** The same loop over any list of buttons, polled in the order given. */
  method PollInOrder(buttons: seq<Button>, menus: map<string, string>, held: nat -> bool, fails: Action -> bool) returns (fired: seq<Command>, completed: bool)
    ensures PollOutcome(fired, completed, CommandsFor(buttons, menus, held), fails)
  {
    fired := [];
    var i := 0;
    while i < |buttons|
      invariant 0 <= i <= |buttons|
      invariant fired == CommandsFor(buttons[..i], menus, held)
      invariant NoneRaise(fired, fails)
    {
      var calls := PollButton(buttons[i], menus, held);
      PollStep(buttons, i, menus, held, fired, calls, fails);
      fired := fired + calls;
      i := i + 1;
      if calls != [] && Raises(calls[0], fails) {
        // The exception leaves update_gamepad_state here.
        completed := false;
        PollStopsAt(buttons, i, menus, held, fired, completed, fails);
        return;
      }
    }
    completed := true;
    PollStopsAt(buttons, i, menus, held, fired, completed, fails);
  }

  /** One button more: its calls follow the earlier ones, and either the first raises or none has yet. */
  lemma PollStep(buttons: seq<Button>, i: nat, menus: map<string, string>, held: nat -> bool,
                 before: seq<Command>, calls: seq<Command>, fails: Action -> bool)
    requires i < |buttons| && before == CommandsFor(buttons[..i], menus, held) && NoneRaise(before, fails)
    requires calls == ButtonCommands(buttons[i], menus, held)
    ensures before + calls == CommandsFor(buttons[..i + 1], menus, held)
    ensures calls != [] && Raises(calls[0], fails) ==>
      (before + calls)[..|before + calls| - 1] == before && Raises((before + calls)[|before + calls| - 1], fails)
    ensures !(calls != [] && Raises(calls[0], fails)) ==> NoneRaise(before + calls, fails)
  {
    CommandsForSnoc(buttons, i, menus, held);
    if calls != [] {
      assert (before + calls)[..|before + calls| - 1] == before;
      if !Raises(calls[0], fails) {
        NoneRaiseSnoc(before, calls[0], fails);
      }
    }
  }

  /** Where the loop stops: after every button, or just after the first raising call. */
  lemma PollStopsAt(buttons: seq<Button>, i: nat, menus: map<string, string>, held: nat -> bool,
                    fired: seq<Command>, completed: bool, fails: Action -> bool)
    requires i <= |buttons| && (completed ==> i == |buttons|)
    requires fired == CommandsFor(buttons[..i], menus, held)
    requires completed ==> NoneRaise(fired, fails)
    requires !completed ==> fired != [] && Raises(fired[|fired| - 1], fails) && NoneRaise(fired[..|fired| - 1], fails)
    ensures PollOutcome(fired, completed, CommandsFor(buttons, menus, held), fails)
  {
    CommandsForPrefix(buttons, i, menus, held);
    if completed {
      assert buttons[..i] == buttons;
    }
  }

  /**
   * Of the polled buttons only A, B, X and Y have menus, so Plus, Minus,
   * Home, Capture, L, ZL, R and ZR never call anything.
   */
  lemma OnlyFaceButtonsFire(menus: map<string, string>, held: nat -> bool, c: Command)
    requires WindowMenus(menus)
    requires c in Fired(menus, held)
    ensures c.button == A || c.button == B || c.button == X || c.button == Y
  {
    CommandsForMembers(Buttons(), menus, held, c);
    assert Name(c.button) in menus.Keys;
    MenuButtons(c.button);
  }

  /** The polled buttons that have a control menu are A, B, X and Y. */
  lemma MenuButtons(b: Button)
    ensures Name(b) in ControlNames() <==> b == A || b == B || b == X || b == Y
  {
  }

  /**
   * The registry key "select" is the only item the chain does not name, and
   * "Select" is not an item: select() is never called from a menu.
   */
  lemma ItemsDispatch(t: string)
    requires t in MenuItems()
    ensures Dispatch(t).None? <==> t == "select"
    ensures Dispatch(t) != Some(SelectItem)
  {
  }

  lemma SelectNeverFires(menus: map<string, string>, held: nat -> bool, c: Command)
    requires WindowMenus(menus)
    requires c in Fired(menus, held)
    ensures c.action != SelectItem
  {
    CommandsForMembers(Buttons(), menus, held, c);
    ItemsDispatch(menus[Name(c.button)]);
  }

  /**
   * There is no edge detection: a button that is still held calls its action
   * again on every poll, whatever happened on the poll before.
   */
  lemma HeldButtonFiresEveryPoll(menus: map<string, string>, held: nat -> bool, b: Button, a: Action)
    requires held(PhysicalIndex(b)) && Name(b) in menus && Dispatch(menus[Name(b)]) == Some(a)
    ensures Command(b, a) in Fired(menus, held)
  {
    CommandsForMembers(Buttons(), menus, held, Command(b, a));
  }

  /** Home and Capture read the same controller index, so they are held together. */
  lemma HomeIsCapture(held: nat -> bool)
    ensures held(PhysicalIndex(Home)) == held(PhysicalIndex(Capture))
  {
  }

  /** The window's own menus are menus it can be in. */
  lemma DefaultMenusValid()
    ensures WindowMenus(DefaultMenus())
  {
  }

  /** As built, A lowers the setpoint, B raises it, X approaches and Y starts or stops imaging. */
  lemma DefaultBindings()
    ensures Dispatch(DefaultMenus()["A"]) == Some(DecreaseSetpoint)
    ensures Dispatch(DefaultMenus()["B"]) == Some(IncreaseSetpoint)
    ensures Dispatch(DefaultMenus()["X"]) == Some(Approach)
    ensures Dispatch(DefaultMenus()["Y"]) == Some(StartStop)
  {
    DefaultFaceTexts();
  }

  /** The face buttons' default texts are items, so their menus show them. */
  lemma DefaultFaceTexts()
    ensures DefaultMenus()["A"] == "decrease_setpoint" && DefaultMenus()["B"] == "increase_setpoint"
    ensures DefaultMenus()["X"] == "Aproach" && DefaultMenus()["Y"] == "startstop"
  {
    DefaultFaceLookups();
    FaceItems();
  }

  lemma DefaultFaceLookups()
    ensures DefaultMenus()["A"] == ComboText("decrease_setpoint") && DefaultMenus()["B"] == ComboText("increase_setpoint")
    ensures DefaultMenus()["X"] == ComboText("Aproach") && DefaultMenus()["Y"] == ComboText("startstop")
  {
  }

  lemma FaceItems()
    ensures "decrease_setpoint" in MenuItems() && "increase_setpoint" in MenuItems()
    ensures "Aproach" in MenuItems() && "startstop" in MenuItems()
  {
    var items := MenuItems();
    assert items[1] == "decrease_setpoint" && items[2] == "increase_setpoint";
    assert items[3] == "Aproach" && items[6] == "startstop";
  }

  /** LB ("Map") and Select ("Select") name no item, so their menus show "H_curve". */
  lemma DefaultFallback()
    ensures DefaultMenus()["LB"] == "H_curve" && DefaultMenus()["Select"] == "H_curve"
  {
    NotAnItem("Map");
    NotAnItem("Select");
  }

  /** "Map" is shorter than every item, and "Select" differs from "select" in its capital. */
  lemma NotAnItem(t: string)
    requires |t| == 3 || (|t| == 6 && t[0] == 'S')
    ensures t !in MenuItems()
  {
    var items := MenuItems();
    forall i | 0 <= i < |items|
      ensures items[i] != t
    {
      assert |items[i]| != |t| || items[i][0] != t[0];
    }
  }

  /** image_offset_x/y change by 0.5e-6 per nudge. */
  const NudgeStep: real := 0.0000005
  /** The stick must be pushed strictly past this for a nudge. */
  const DeadZone: real := 0.5

  /** One stick axis: past +0.5 the offset goes up by a step, past -0.5 down; otherwise no write. */
  function AxisNudge(axis: real, offset: real): Option<real> {
    if axis > DeadZone then Some(offset + NudgeStep)
    else if axis < -DeadZone then Some(offset - NudgeStep)
    else None
  }

  /** The offsets to write after a poll: for x and for y, a new value or nothing. */
  datatype OffsetWrites = OffsetWrites(x: Option<real>, y: Option<real>)

  /**
   * The joystick block of update_gamepad_state. offsets is the read of
   * (image_offset_x, image_offset_y), None when the read raises; due is the
   * rate-limit guard. The y axis is inverted: pushing up (negative) raises y.
   */
  function JoystickWrites(leftX: real, leftY: real, due: bool, offsets: Option<(real, real)>): (w: OffsetWrites)
    ensures w.x.Some? <==> due && offsets.Some? && (leftX > DeadZone || leftX < -DeadZone)
    ensures w.y.Some? <==> due && offsets.Some? && (leftY > DeadZone || leftY < -DeadZone)
  {
    match offsets
    case None => OffsetWrites(None, None)
    case Some(o) =>
      if !due then OffsetWrites(None, None)
      else OffsetWrites(AxisNudge(leftX, o.0), AxisNudge(-leftY, o.1))
  }

  /** How far a write moves an offset: its new value less the old, or 0 without a write. */
  function Moved(write: Option<real>, before: real): real {
    match write
    case None => 0.0
    case Some(v) => v - before
  }

  /** Each write moves its offset by exactly one step, towards the side the stick is pushed (y inverted). */
  lemma JoystickStep(leftX: real, leftY: real, due: bool, ox: real, oy: real)
    ensures var w := JoystickWrites(leftX, leftY, due, Some((ox, oy)));
      && (w.x.Some? ==> Moved(w.x, ox) == (if leftX > 0.0 then NudgeStep else -NudgeStep))
      && (w.y.Some? ==> Moved(w.y, oy) == (if leftY > 0.0 then -NudgeStep else NudgeStep))
  {
  }

  /** Mirroring the stick mirrors the nudge. */
  lemma JoystickMirror(leftX: real, leftY: real, due: bool, ox: real, oy: real)
    ensures var w := JoystickWrites(leftX, leftY, due, Some((ox, oy)));
      var m := JoystickWrites(-leftX, -leftY, due, Some((ox, oy)));
      Moved(m.x, ox) == -Moved(w.x, ox) && Moved(m.y, oy) == -Moved(w.y, oy)
  {
  }

  /** The y rule is the x rule on the inverted axis. */
  lemma YIsInvertedX(leftX: real, leftY: real, due: bool, ox: real, oy: real)
    ensures var w := JoystickWrites(leftX, leftY, due, Some((ox, oy)));
      var t := JoystickWrites(-leftY, leftX, due, Some((oy, ox)));
      w.y == t.x
  {
  }
}
