/**
 * Game controls, the key-to-control table and the translation of held and
 * newly pressed keys into control events (src/control.rs).
 */
module Controls {

  import opened Wrappers

  datatype GameControl = Up | Down | Left | Right | Interact

  datatype ControlStatus = Pressed | JustPressed

  datatype GameControlEvent = GameControlEvent(control: GameControl, status: ControlStatus)

  /** The keys the table names, and every other key as an opaque code. */
  datatype KeyCode =
    | KeyW | KeyS | KeyA | KeyD
    | ArrowUp | ArrowDown | ArrowLeft | ArrowRight
    | Space | Enter
    | OtherKey(code: nat)

  datatype Input = Keyboard(key: KeyCode)

  /** `GameControlEvent::pressed`. */
  predicate IsPressed(ev: GameControlEvent) {
    ev.status == Pressed
  }

  /** `GameControlEvent::just_pressed`. */
  predicate IsJustPressed(ev: GameControlEvent) {
    ev.status == JustPressed
  }

  /** `GameControlEvent::is_movement`. */
  predicate IsMovement(ev: GameControlEvent) {
    match ev.control
    case Up => true
    case Down => true
    case Left => true
    case Right => true
    case _ => false
  }

  /** Some newly pressed Interact event is present. */
  predicate HasJustPressedInteract(events: seq<GameControlEvent>) {
    exists i :: 0 <= i < |events| && IsJustPressed(events[i]) && events[i].control == Interact
  }

  /**
   * Where a reader that looks for the first newly pressed Interact (a `find` or
   * `nth(0)` over the filtered events) stops: its position, or None when there
   * is none and the whole list is read.
   */
  function FirstJustPressedInteract(events: seq<GameControlEvent>): (r: Option<nat>)
    ensures r.None? <==> !HasJustPressedInteract(events)
    ensures r.Some? ==> r.value < |events| && IsJustPressed(events[r.value]) && events[r.value].control == Interact
    ensures r.Some? ==> forall j :: 0 <= j < r.value ==> !(IsJustPressed(events[j]) && events[j].control == Interact)
    decreases |events|
  {
    if events == [] then None
    else if IsJustPressed(events[0]) && events[0].control == Interact then Some(0)
    else
      var rest := FirstJustPressedInteract(events[1..]);
      assert forall i :: 1 <= i < |events| ==> events[i] == events[1..][i - 1];
      match rest
      case None => None
      case Some(i) => Some(i + 1)
  }

  /** The events such a reader leaves unread for a later read: everything after the first match. */
  function UnreadAfterInteract(events: seq<GameControlEvent>): (r: seq<GameControlEvent>)
    ensures !HasJustPressedInteract(events) ==> r == []
    ensures HasJustPressedInteract(events) ==> |r| < |events| && r == events[|events| - |r|..]
  {
    match FirstJustPressedInteract(events)
    case None => []
    case Some(i) => events[i + 1..]
  }

  /** An event is held or newly pressed, never both; only Interact is not a movement. */
  lemma ControlPredicates(ev: GameControlEvent)
    ensures IsPressed(ev) != IsJustPressed(ev)
    ensures IsMovement(ev) <==> ev.control != Interact
  {
  }

  /** The table `init_input_map` installs. */
  function DefaultInputMap(): (m: map<Input, GameControl>)
    ensures forall i :: i in m <==> !i.key.OtherKey?
  {
    map[
      Keyboard(KeyW) := Up, Keyboard(KeyS) := Down,
      Keyboard(KeyA) := Left, Keyboard(KeyD) := Right,
      Keyboard(ArrowUp) := Up, Keyboard(ArrowDown) := Down,
      Keyboard(ArrowLeft) := Left, Keyboard(ArrowRight) := Right,
      Keyboard(Space) := Interact, Keyboard(Enter) := Interact]
  }

  /** The table has exactly ten entries. */
  lemma DefaultInputMapSize()
    ensures |DefaultInputMap()| == 10
  {
    var m1 := map[Keyboard(KeyW) := Up];
    var m2 := m1[Keyboard(KeyS) := Down];
    var m3 := m2[Keyboard(KeyA) := Left];
    var m4 := m3[Keyboard(KeyD) := Right];
    var m5 := m4[Keyboard(ArrowUp) := Up];
    var m6 := m5[Keyboard(ArrowDown) := Down];
    var m7 := m6[Keyboard(ArrowLeft) := Left];
    var m8 := m7[Keyboard(ArrowRight) := Right];
    var m9 := m8[Keyboard(Space) := Interact];
    var m10 := m9[Keyboard(Enter) := Interact];
    assert |m5| == 5;
    assert |m10| == 10;
    assert m10 == DefaultInputMap();
  }

  /** Which control each key of the table stands for. */
  lemma DefaultInputMapTable(k: KeyCode)
    ensures var m := DefaultInputMap();
      && (Keyboard(k) in m && m[Keyboard(k)] == Up <==> k == KeyW || k == ArrowUp)
      && (Keyboard(k) in m && m[Keyboard(k)] == Down <==> k == KeyS || k == ArrowDown)
      && (Keyboard(k) in m && m[Keyboard(k)] == Left <==> k == KeyA || k == ArrowLeft)
      && (Keyboard(k) in m && m[Keyboard(k)] == Right <==> k == KeyD || k == ArrowRight)
      && (Keyboard(k) in m && m[Keyboard(k)] == Interact <==> k == Space || k == Enter)
  {
    match k {
      case KeyW =>
      case KeyS =>
      case KeyA =>
      case KeyD =>
      case ArrowUp =>
      case ArrowDown =>
      case ArrowLeft =>
      case ArrowRight =>
      case Space =>
      case Enter =>
      case OtherKey(_) =>
    }
  }

  /** The events one loop of `map_inputs_to_control_events` sends for the keys it visits. */
  function ControlEvents(m: map<Input, GameControl>, keys: seq<KeyCode>, status: ControlStatus): (r: seq<GameControlEvent>)
    ensures |r| <= |keys|
    decreases |keys|
  {
    if keys == [] then []
    else
      var n := |keys| - 1;
      var k := keys[n];
      ControlEvents(m, keys[..n], status)
        + if Keyboard(k) in m then [GameControlEvent(m[Keyboard(k)], status)] else []
  }

  /** The events carry `status`, and there is one for a control exactly when some key mapped to it was visited. */
  lemma {:induction false} ControlEventsMeaning(m: map<Input, GameControl>, keys: seq<KeyCode>, status: ControlStatus)
    ensures forall ev :: ev in ControlEvents(m, keys, status) <==>
      ev.status == status && exists k :: k in keys && Keyboard(k) in m && m[Keyboard(k)] == ev.control
    decreases |keys|
  {
    if keys != [] {
      var n := |keys| - 1;
      ControlEventsMeaning(m, keys[..n], status);
      assert forall x :: x in keys <==> x in keys[..n] || x == keys[n];
    }
  }

  /** A mapped key sends exactly one event and an unmapped key none. */
  lemma ControlEventsOfOneKey(m: map<Input, GameControl>, k: KeyCode, status: ControlStatus)
    ensures ControlEvents(m, [k], status) ==
      if Keyboard(k) in m then [GameControlEvent(m[Keyboard(k)], status)] else []
  {
    assert [k][..0] == [];
  }

  /** The events follow the key order: the events of a concatenation are the concatenated events. */
  lemma {:induction false} ControlEventsAppend(m: map<Input, GameControl>, a: seq<KeyCode>, b: seq<KeyCode>, status: ControlStatus)
    ensures ControlEvents(m, a + b, status) == ControlEvents(m, a, status) + ControlEvents(m, b, status)
    decreases |b|
  {
    if b == [] {
      assert a + b == a;
    } else {
      var n := |b| - 1;
      assert (a + b)[..|a + b| - 1] == a + b[..n];
      assert (a + b)[|a + b| - 1] == b[n];
      ControlEventsAppend(m, a, b[..n], status);
    }
  }

  /** Held-key events followed by new-key events: no held event comes after a new one. */
  lemma HeldBeforeNew(held: seq<GameControlEvent>, newly: seq<GameControlEvent>)
    requires forall ev :: ev in held ==> ev.status == Pressed
    requires forall ev :: ev in newly ==> ev.status == JustPressed
    ensures var events := held + newly;
      forall i, j :: 0 <= i < j < |events| && events[j].status == Pressed ==> events[i].status == Pressed
  {
    var events := held + newly;
    forall k | 0 <= k < |events|
      ensures events[k].status == if k < |held| then Pressed else JustPressed
    {
      if k < |held| {
        assert events[k] == held[k] && held[k] in held;
      } else {
        assert events[k] == newly[k - |held|] && newly[k - |held|] in newly;
      }
    }
  }

  /** The `InputMap` resource. */
  class ControlWorld {
    var inputMap: map<Input, GameControl>

    /** The resource starts as an empty map. */
    constructor ()
      ensures inputMap == map[]
    {
      inputMap := map[];
    }

    /** `init_input_map`: replace the resource by the default table. */
    method InitInputMap()
      modifies this
      ensures inputMap == DefaultInputMap()
    {
      inputMap := DefaultInputMap();
    }

    /**
     * `map_inputs_to_control_events`: one Pressed event per mapped held key,
     * then one JustPressed event per mapped newly pressed key.
     */
    method MapInputsToControlEvents(pressed: seq<KeyCode>, justPressed: seq<KeyCode>) returns (events: seq<GameControlEvent>)
      ensures events == ControlEvents(inputMap, pressed, Pressed) + ControlEvents(inputMap, justPressed, JustPressed)
      ensures forall i, j :: 0 <= i < j < |events| && events[j].status == Pressed ==> events[i].status == Pressed
    {
      var held := SendEvents(pressed, Pressed);
      var newly := SendEvents(justPressed, JustPressed);
      ControlEventsMeaning(inputMap, pressed, Pressed);
      ControlEventsMeaning(inputMap, justPressed, JustPressed);
      events := held + newly;
      HeldBeforeNew(held, newly);
    }

    /** One of the two key loops: an event with `status` for every mapped key, in key order. */
    method SendEvents(keys: seq<KeyCode>, status: ControlStatus) returns (events: seq<GameControlEvent>)
      ensures events == ControlEvents(inputMap, keys, status)
    {
      events := [];
      for i := 0 to |keys|
        invariant events == ControlEvents(inputMap, keys[..i], status)
      {
        assert keys[..i + 1][..i] == keys[..i];
        var input := Keyboard(keys[i]);
        if input in inputMap {
          events := events + [GameControlEvent(inputMap[input], status)];
        }
      }
      assert keys[..|keys|] == keys;
    }
  }
}
