/**
 * The dialog paging state machine (src/dialog.rs) over the dialog records of
 * src/text_loading.rs: the current page, the page's full text and how much of
 * it has been revealed, driven by page events, a repeating reveal timer and the
 * Interact control.
 *
 * Rust strings are UTF-8 and both `len()` and slicing count bytes, so texts are
 * byte sequences here and the reveal index is a byte index.
 */
module Dialogs {
  import opened Wrappers
  import opened Ecs
  import opened Controls
  import opened Timers

  type Byte = b: int | 0 <= b < 256

  /** `Span`: a piece of text and the pause before it in milliseconds. */
  datatype Span = Span(text: seq<Byte>, pausebefore: nat)

  datatype Page = Page(speaker: seq<Byte>, mood: seq<Byte>, spans: seq<Span>)

  type Dialog = seq<Page>

  /** `PageEvent(i)`: show page `i`. */
  datatype PageEvent = PageEvent(page: nat)

  /** `CurrentPageText`: the page's text and the length of its revealed prefix. */
  datatype PageText = PageText(fullText: seq<Byte>, currentIndex: nat)

  /** `CurrentPageIndex` together with `CurrentPageText`. */
  datatype Paging = Paging(pageIndex: nat, text: PageText)

  /** `TextRevealTimer::default` repeats every 0.05 s. */
  const REVEAL_INTERVAL_MS: nat := 50

  // ---------------------------------------------------------------------------
  // Page text
  // ---------------------------------------------------------------------------

  /** The span texts of a page joined in order with no separator. */
  function JoinSpans(spans: seq<Span>): seq<Byte>
    decreases |spans|
  {
    if spans == [] then [] else JoinSpans(spans[..|spans| - 1]) + spans[|spans| - 1].text
  }

  /** Joining is a homomorphism: the text of concatenated span lists is the concatenated text. */
  lemma {:induction false} JoinSpansAppend(a: seq<Span>, b: seq<Span>)
    ensures JoinSpans(a + b) == JoinSpans(a) + JoinSpans(b)
    decreases |b|
  {
    if b == [] {
      assert a + b == a;
    } else {
      var n := |b| - 1;
      var ab := a + b;
      assert ab[..|ab| - 1] == a + b[..n];
      assert ab[|ab| - 1] == b[n];
      assert JoinSpans(ab) == JoinSpans(a + b[..n]) + b[n].text;
      JoinSpansAppend(a, b[..n]);
      assert JoinSpans(b) == JoinSpans(b[..n]) + b[n].text;
    }
  }

  /** One span's text is the whole page text. */
  lemma JoinSpansOfOne(s: Span)
    ensures JoinSpans([s]) == s.text
  {
    assert [s][..0] == [];
  }

  // ---------------------------------------------------------------------------
  // change_page
  // ---------------------------------------------------------------------------

  /** Every page event names a page of the dialog, if there is one: indexing it does not panic. */
  predicate PageEventsFit(dialog: Option<Dialog>, events: seq<PageEvent>) {
    dialog.Some? ==> forall i :: 0 <= i < |events| ==> events[i].page < |dialog.value|
  }

  /** One iteration of `change_page`'s event loop. */
  function ApplyPageEvent(dialog: Option<Dialog>, p: Paging, ev: PageEvent): Paging
    requires dialog.Some? ==> ev.page < |dialog.value|
  {
    Paging(ev.page, if dialog.Some? then PageText(JoinSpans(dialog.value[ev.page].spans), 0) else p.text)
  }

  /** `change_page`: the events in order. */
  function ChangePageOutcome(dialog: Option<Dialog>, p: Paging, events: seq<PageEvent>): (r: Paging)
    requires PageEventsFit(dialog, events)
    ensures r.text == p.text || r.text.currentIndex == 0
    decreases |events|
  {
    if events == [] then p
    else ChangePageOutcome(dialog, ApplyPageEvent(dialog, p, events[0]), events[1..])
  }

  /**
   * The last page event wins: it sets the page index, and when a dialog is
   * loaded the text becomes that page's joined spans with nothing revealed.
   * Without a dialog the text is untouched; without events nothing changes.
   */
  lemma {:induction false} ChangePageLastWins(dialog: Option<Dialog>, p: Paging, events: seq<PageEvent>)
    requires PageEventsFit(dialog, events)
    ensures events == [] ==> ChangePageOutcome(dialog, p, events) == p
    ensures events != [] ==> ChangePageOutcome(dialog, p, events).pageIndex == events[|events| - 1].page
    ensures events != [] && dialog.Some? ==>
      ChangePageOutcome(dialog, p, events).text == PageText(JoinSpans(dialog.value[events[|events| - 1].page].spans), 0)
    ensures dialog.None? ==> ChangePageOutcome(dialog, p, events).text == p.text
    decreases |events|
  {
    if events != [] {
      var q := ApplyPageEvent(dialog, p, events[0]);
      ChangePageLastWins(dialog, q, events[1..]);
      if |events| > 1 {
        assert events[1..][|events[1..]| - 1] == events[|events| - 1];
      }
    }
  }

  /** `enter_dialog` sends the event for the first page. */
  function EnterDialogEvents(): (r: seq<PageEvent>)
    ensures |r| == 1 && r[0].page == 0
  {
    [PageEvent(0)]
  }

  /** Entering a non-empty dialog shows its first page from the start. */
  lemma EnterDialogShowsFirstPage(d: Dialog, p: Paging)
    requires |d| > 0
    ensures PageEventsFit(Some(d), EnterDialogEvents())
    ensures ChangePageOutcome(Some(d), p, EnterDialogEvents()) == Paging(0, PageText(JoinSpans(d[0].spans), 0))
  {
    assert EnterDialogEvents()[1..] == [];
  }

  // ---------------------------------------------------------------------------
  // Revealing text, and where the source reveals bytes instead of characters
  // ---------------------------------------------------------------------------

  /**
   * `str::is_char_boundary`: the ends of the text, and every position whose byte
   * is not a UTF-8 continuation byte (0x80..0xBF).
   */
  predicate IsCharBoundary(s: seq<Byte>, i: nat) {
    i == 0 || i == |s| || (i < |s| && (s[i] < 0x80 || s[i] >= 0xC0))
  }

  /** The reveal index stays within the text and on a character boundary. */
  predicate RevealOk(t: PageText) {
    t.currentIndex <= |t.fullText| && IsCharBoundary(t.fullText, t.currentIndex)
  }

  /** The slice `stream_text` shows, or None where the slice panics. */
  function DisplayedText(t: PageText): (r: Option<seq<Byte>>)
    ensures r.Some? <==> RevealOk(t)
    ensures r.Some? ==> |r.value| == t.currentIndex && r.value <= t.fullText
  {
    if RevealOk(t) then Some(t.fullText[..t.currentIndex]) else None
  }

  /**
   * `update_current_page_text` as written: while text remains, tick the reveal
   * timer, and on a finish reveal one more byte.
   */
  function RevealByteStep(t: PageText, timer: Timer, delta: nat): (r: (PageText, Timer))
    requires timer.duration > 0
    ensures r.0.fullText == t.fullText
    ensures t.currentIndex <= |t.fullText| ==> r.0.currentIndex <= |t.fullText|
    ensures r.0.currentIndex == t.currentIndex || (t.currentIndex < |t.fullText| && r.0.currentIndex == t.currentIndex + 1)
    ensures t.currentIndex < |t.fullText| ==>
      r.1 == RepeatingTick(timer, delta) && (r.0.currentIndex != t.currentIndex <==> r.1.justFinished)
    ensures t.currentIndex >= |t.fullText| ==> r == (t, timer)
  {
    if t.currentIndex < |t.fullText| then
      var ticked := RepeatingTick(timer, delta);
      (if ticked.justFinished then t.(currentIndex := t.currentIndex + 1) else t, ticked)
    else (t, timer)
  }

  /**
   * Revealing bytes splits characters: on the two-byte text "é" one finished
   * tick leaves the index inside the character, where the slice of `stream_text`
   * panics.
   */
  lemma ByteRevealSplitsCharacter()
    ensures var t := PageText([0xC3, 0xA9], 0);
      var r := RevealByteStep(t, OnceTimer(REVEAL_INTERVAL_MS), REVEAL_INTERVAL_MS);
      RevealOk(t) && r.0.currentIndex == 1 && DisplayedText(r.0).None?
  {
  }

  /** The first character boundary after `i`. */
  function NextBoundary(s: seq<Byte>, i: nat): (j: nat)
    requires i < |s|
    ensures i < j <= |s| && IsCharBoundary(s, j)
    ensures forall k :: i < k < j ==> !IsCharBoundary(s, k)
    decreases |s| - i
  {
    if IsCharBoundary(s, i + 1) then i + 1 else NextBoundary(s, i + 1)
  }

  /**
   * `update_current_page_text` as evidently intended: on a finish, reveal one
   * more character, that is, advance to the next character boundary.
   */
  function RevealCharStep(t: PageText, timer: Timer, delta: nat): (r: (PageText, Timer))
    requires timer.duration > 0
    ensures r.0.fullText == t.fullText
    ensures t.currentIndex < |t.fullText| ==>
      r.1 == RepeatingTick(timer, delta) && (r.0.currentIndex != t.currentIndex <==> r.1.justFinished)
    ensures t.currentIndex < |t.fullText| && r.1.justFinished ==> r.0.currentIndex == NextBoundary(t.fullText, t.currentIndex)
    ensures t.currentIndex >= |t.fullText| ==> r == (t, timer)
  {
    if t.currentIndex < |t.fullText| then
      var ticked := RepeatingTick(timer, delta);
      (if ticked.justFinished then t.(currentIndex := NextBoundary(t.fullText, t.currentIndex)) else t, ticked)
    else (t, timer)
  }

  /**
   * The corrected step keeps the displayed text well formed, reveals at most one
   * character (it does not jump over a boundary), reveals something on every
   * tick that reaches the reveal interval while text remains, and on text whose
   * next byte starts a character (all of ASCII) it is exactly the step as written.
   */
  lemma RevealCharStepSound(t: PageText, timer: Timer, delta: nat)
    requires timer.duration > 0
    ensures var r := RevealCharStep(t, timer, delta);
      && (RevealOk(t) ==> RevealOk(r.0) && DisplayedText(r.0).Some?)
      && t.currentIndex <= r.0.currentIndex
      && (forall k :: t.currentIndex < k < r.0.currentIndex ==> !IsCharBoundary(t.fullText, k))
      && (t.currentIndex < |t.fullText| && timer.elapsed + delta >= timer.duration ==> t.currentIndex < r.0.currentIndex)
      && (timer.elapsed + delta < timer.duration ==> r.0 == t)
      && (t.currentIndex + 1 < |t.fullText| && t.fullText[t.currentIndex + 1] < 0x80 ==> r == RevealByteStep(t, timer, delta))
  {
  }

  // ---------------------------------------------------------------------------
  // dialog_control
  // ---------------------------------------------------------------------------

  /** What `dialog_control` does: the new page text, the page events it sends and the state it asks for. */
  datatype ControlOutcome = ControlOutcome(text: PageText, pageEvents: seq<PageEvent>, nextState: Option<GameState>)

  /** Interact is acted on: newly pressed, and the state did not change this frame. */
  predicate InteractActs(events: seq<GameControlEvent>, stateChanged: bool) {
    HasJustPressedInteract(events) && !stateChanged
  }

  /** `total_pages - 1` does not underflow where it is computed. */
  predicate DialogControlOk(dialog: Option<Dialog>, text: PageText, events: seq<GameControlEvent>, stateChanged: bool) {
    InteractActs(events, stateChanged) && dialog.Some? && text.currentIndex >= |text.fullText| ==> |dialog.value| > 0
  }

  function DialogControlOutcome(dialog: Option<Dialog>, pageIndex: nat, text: PageText,
                                events: seq<GameControlEvent>, stateChanged: bool): ControlOutcome
    requires DialogControlOk(dialog, text, events, stateChanged)
  {
    if !InteractActs(events, stateChanged) then ControlOutcome(text, [], None)
    else if dialog.None? then ControlOutcome(text, [], Some(Playing))
    else if text.currentIndex < |text.fullText| then ControlOutcome(text.(currentIndex := |text.fullText|), [], None)
    else if pageIndex < |dialog.value| - 1 then ControlOutcome(text, [PageEvent(pageIndex + 1)], None)
    else ControlOutcome(text, [], Some(Playing))
  }

  /**
   * The three transitions of `dialog_control`. Without an acted-on Interact
   * nothing happens. Otherwise: partially revealed text is revealed at once
   * with no event and no state change; fully revealed text before the last page
   * sends exactly the next page's event; on the last page, or without a dialog,
   * it asks for Playing. The text is only ever changed by revealing all of it,
   * an event is sent only when a next page exists, and the two never coincide.
   */
  lemma DialogControlTransitions(dialog: Option<Dialog>, pageIndex: nat, text: PageText,
                                 events: seq<GameControlEvent>, stateChanged: bool)
    requires DialogControlOk(dialog, text, events, stateChanged)
    ensures var r := DialogControlOutcome(dialog, pageIndex, text, events, stateChanged);
      && r.text.fullText == text.fullText
      && (r.text == text || (r.text.currentIndex == |text.fullText| && text.currentIndex < |text.fullText| && InteractActs(events, stateChanged)))
      && (RevealOk(text) ==> RevealOk(r.text))
      && (r.pageEvents != [] <==> InteractActs(events, stateChanged) && dialog.Some? && text.currentIndex >= |text.fullText| && pageIndex + 1 < |dialog.value|)
      && (r.pageEvents != [] ==> r.pageEvents == [PageEvent(pageIndex + 1)] && PageEventsFit(dialog, r.pageEvents))
      && (r.nextState.Some? <==> InteractActs(events, stateChanged) && (dialog.None? || (text.currentIndex >= |text.fullText| && pageIndex + 1 >= |dialog.value|)))
      && (r.nextState.Some? ==> r.nextState == Some(Playing) && r.pageEvents == [])
      && !(r.text != text && (r.pageEvents != [] || r.nextState.Some?))
  {
  }

  /**
   * Pressing Interact on a fully revealed page that is not the last, and then
   * running `change_page` on the event it sends, shows the next page from its
   * beginning.
   */
  lemma InteractTurnsThePage(d: Dialog, pageIndex: nat, text: PageText, events: seq<GameControlEvent>)
    requires InteractActs(events, false) && text.currentIndex >= |text.fullText| && pageIndex + 1 < |d|
    ensures var r := DialogControlOutcome(Some(d), pageIndex, text, events, false);
      && PageEventsFit(Some(d), r.pageEvents)
      && ChangePageOutcome(Some(d), Paging(pageIndex, r.text), r.pageEvents) == Paging(pageIndex + 1, PageText(JoinSpans(d[pageIndex + 1].spans), 0))
  {
    var r := DialogControlOutcome(Some(d), pageIndex, text, events, false);
    assert r.pageEvents[1..] == [];
  }

  // ---------------------------------------------------------------------------
  // The dialog resources
  // ---------------------------------------------------------------------------

  class DialogWorld {
    /** `CurrentDialog`, as loaded when the dialog was started. */
    const dialog: Option<Dialog>
    var pageIndex: nat
    var fullText: seq<Byte>
    var currentIndex: nat
    var revealTimer: Timer

    /** The reveal index is within the text and on a character boundary; the timer repeats. */
    ghost predicate Valid()
      reads this
    {
      RevealOk(PageText(fullText, currentIndex)) && revealTimer.duration > 0
    }

    function Text(): PageText
      reads this
    {
      PageText(fullText, currentIndex)
    }

    /** The resources' defaults: page 0, empty text, a fresh 0.05 s timer. */
    constructor (dialog: Option<Dialog>)
      ensures this.dialog == dialog && pageIndex == 0 && fullText == [] && currentIndex == 0
      ensures revealTimer == OnceTimer(REVEAL_INTERVAL_MS)
      ensures Valid()
    {
      this.dialog := dialog;
      pageIndex, fullText, currentIndex := 0, [], 0;
      revealTimer := OnceTimer(REVEAL_INTERVAL_MS);
    }

    /** `enter_dialog`: send the first page's event. */
    method EnterDialog() returns (events: seq<PageEvent>)
      ensures events == EnterDialogEvents()
    {
      events := [PageEvent(0)];
    }

    /** `change_page`. */
    method ChangePage(events: seq<PageEvent>)
      requires Valid() && PageEventsFit(dialog, events)
      modifies this
      ensures Paging(pageIndex, Text()) == ChangePageOutcome(dialog, Paging(old(pageIndex), old(Text())), events)
      ensures revealTimer == old(revealTimer)
      ensures Valid()
    {
      ghost var p0 := Paging(pageIndex, Text());
      var i := 0;
      assert events[0..] == events;
      while i < |events|
        invariant 0 <= i <= |events| && revealTimer == old(revealTimer)
        invariant ChangePageOutcome(dialog, p0, events) == ChangePageOutcome(dialog, Paging(pageIndex, Text()), events[i..])
      {
        assert events[i..][0] == events[i] && events[i..][1..] == events[i + 1..];
        pageIndex := events[i].page;
        if dialog.Some? {
          fullText := JoinSpans(dialog.value[events[i].page].spans);
          currentIndex := 0;
        }
        i := i + 1;
      }
      assert events[|events|..] == [];
    }

    /** `update_current_page_text`, revealing one character per finished tick. */
    method UpdateCurrentPageText(delta: nat)
      requires Valid()
      modifies this
      ensures (Text(), revealTimer) == RevealCharStep(old(Text()), old(revealTimer), delta)
      ensures pageIndex == old(pageIndex)
      ensures Valid()
    {
      RevealCharStepSound(Text(), revealTimer, delta);
      if currentIndex < |fullText| {
        revealTimer := RepeatingTick(revealTimer, delta);
        if revealTimer.justFinished {
          currentIndex := NextBoundary(fullText, currentIndex);
        }
      }
    }

    /** The text `stream_text` displays: the revealed prefix. */
    method StreamText() returns (displayed: seq<Byte>)
      requires Valid()
      ensures DisplayedText(Text()) == Some(displayed)
    {
      displayed := fullText[..currentIndex];
    }

    /** `dialog_control`: returns the page events it sends and the state it asks for. */
    method DialogControl(events: seq<GameControlEvent>, stateChanged: bool) returns (pageEvents: seq<PageEvent>, nextState: Option<GameState>, unread: seq<GameControlEvent>)
      requires Valid() && DialogControlOk(dialog, Text(), events, stateChanged)
      modifies this
      ensures ControlOutcome(Text(), pageEvents, nextState) == DialogControlOutcome(dialog, pageIndex, old(Text()), events, stateChanged)
      ensures pageIndex == old(pageIndex) && revealTimer == old(revealTimer)
      ensures unread == UnreadAfterInteract(events)
      ensures Valid()
    {
      pageEvents, nextState := [], None;
      var found := false;
      var i := 0;
      while i < |events| && !found
        invariant 0 <= i <= |events|
        invariant found ==> HasJustPressedInteract(events)
        invariant !found ==> forall j :: 0 <= j < i ==> !(IsJustPressed(events[j]) && events[j].control == Interact)
        invariant found ==> FirstJustPressedInteract(events) == Some(i - 1)
      {
        if IsJustPressed(events[i]) && events[i].control == Interact {
          found := true;
        }
        i := i + 1;
      }
      unread := if found then events[i..] else [];
      if !found || stateChanged {
        return;
      }
      if dialog.None? {
        nextState := Some(Playing);
        return;
      }
      if currentIndex < |fullText| {
        currentIndex := |fullText|;
        return;
      }
      if pageIndex < |dialog.value| - 1 {
        pageEvents := [PageEvent(pageIndex + 1)];
      } else {
        nextState := Some(Playing);
      }
    }
  }
}
