/** The checklist card component, in both of its layouts: the list card of
    components/checklist-card.tsx and the grid card of
    components/checklist-card-grid.tsx run the same timer effect and the same
    click and confirm-uncheck handlers; the grid card adds a red dot. */
module ChecklistCard {
  import opened Wrappers
  import opened Json
  import opened ResetTimer
  import opened Page
  import CardIcon

  /** A call the card makes to its parent's `onCheck` or `onUncheck`. */
  datatype Callback = OnCheck(id: string) | OnUncheck(id: string)

  /** The displayed state is the evaluation at the last tick, if any. */
  ghost predicate Shows(needsCheck: bool, timeRemaining: string, at: Option<int>, item: ChecklistItem)
  {
    at.Some? ==> Evaluation(needsCheck, timeRemaining) == Evaluate(at.value, item.lastChecked, item.resetHours)
  }

  /** The countdown branch of `updateTimer`: whole hours, minutes and
      seconds of `remaining` milliseconds, each zero-padded to two digits.
      The text reads back as the clock of `remaining`. */
  method FormatRemaining(remaining: int) returns (text: string)
    requires remaining > 0
    ensures text == Countdown(ClockOf(remaining))
    ensures ParseCountdown(text) == Some(ClockOf(remaining))
  {
    var hours := remaining / MsPerHour;
    var minutes := (remaining % MsPerHour) / MsPerMinute;
    var seconds := (remaining % MsPerMinute) / MsPerSecond;
    text := Field(hours) + [':'] + Field(minutes) + [':'] + Field(seconds);
    assert Clock(hours, minutes, seconds) == ClockOf(remaining);
    CountdownRoundTrip(ClockOf(remaining));
  }

  /** Whether React sees the effect dependencies `[item.lastChecked,
      item.resetHours]` change (`Object.is`): a different `resetHours`, a
      different `lastChecked` instant or nullness, or a new `Date` object for
      a non-null `lastChecked`. */
  predicate DependenciesChanged(prev: ChecklistItem, next: ChecklistItem, dateRenewed: bool)
    ensures prev.lastChecked == next.lastChecked && prev.resetHours == next.resetHours ==>
              (DependenciesChanged(prev, next, dateRenewed) <==> dateRenewed && next.lastChecked.Some?)
    ensures next.lastChecked.None? && prev.resetHours == next.resetHours ==>
              (DependenciesChanged(prev, next, dateRenewed) <==> prev.lastChecked.Some?)
  {
    prev.lastChecked != next.lastChecked || prev.resetHours != next.resetHours
    || (dateRenewed && next.lastChecked.Some?)
  }

  class Card {
    /** The `item` prop. */
    var item: ChecklistItem
    var needsCheck: bool
    var timeRemaining: string
    var showUncheckModal: bool
    /** Every callback the card has made, oldest first. */
    var calls: seq<Callback>
    /** The instant of the last timer evaluation, if one has run. */
    ghost var evaluatedAt: Option<int>

    /** After a tick, the displayed state is the evaluation at that tick. */
    ghost predicate Valid()
      reads this`needsCheck, this`timeRemaining, this`evaluatedAt, this`item
    {
      Shows(needsCheck, timeRemaining, evaluatedAt, item)
    }

    /** First render, before the timer effect runs. */
    constructor(item: ChecklistItem)
      ensures Valid()
      ensures this.item == item && evaluatedAt == None
      ensures !needsCheck && timeRemaining == "" && !showUncheckModal && calls == []
    {
      this.item := item;
      needsCheck := false;
      timeRemaining := "";
      showUncheckModal := false;
      calls := [];
      evaluatedAt := None;
    }

    /** `updateTimer`, run at instant `now`. */
    method UpdateTimer(now: int)
      modifies this`needsCheck, this`timeRemaining, this`evaluatedAt
      ensures Valid() && evaluatedAt == Some(now)
      ensures needsCheck <==> NeedsCheck(now, item.lastChecked, item.resetHours)
      ensures needsCheck <==> timeRemaining == ""
    {
      var lastChecked, resetHours := item.lastChecked, item.resetHours;
      var check: bool, text: string;
      if lastChecked.None? {
        check, text := true, "";
      } else {
        var remaining := Remaining(now, lastChecked.value, resetHours);
        if remaining <= 0 {
          check, text := true, "";
        } else {
          check := false;
          text := FormatRemaining(remaining);
        }
      }
      assert Evaluation(check, text) == Evaluate(now, lastChecked, resetHours);
      needsCheck, timeRemaining, evaluatedAt := check, text, Some(now);
      assert item.lastChecked == lastChecked && item.resetHours == resetHours;
      assert Shows(needsCheck, timeRemaining, evaluatedAt, item);
    }

    /** A new `item` prop at instant `now`. The timer effect's dependencies
        are compared by identity: `resetHours` by value, `lastChecked` by
        value when it is `null` and by `Date` object otherwise, so a new
        `Date` for the same instant (`dateRenewed`) also re-runs it. */
    method ReceiveItem(next: ChecklistItem, dateRenewed: bool, now: int)
      requires Valid()
      modifies this`item, this`needsCheck, this`timeRemaining, this`evaluatedAt
      ensures Valid() && item == next
      ensures DependenciesChanged(old(item), next, dateRenewed) ==>
                evaluatedAt == Some(now) && (needsCheck <==> NeedsCheck(now, next.lastChecked, next.resetHours))
      ensures !DependenciesChanged(old(item), next, dateRenewed) ==>
                needsCheck == old(needsCheck) && timeRemaining == old(timeRemaining) && evaluatedAt == old(evaluatedAt)
    {
      var changed := DependenciesChanged(item, next, dateRenewed);
      item := next;
      if changed {
        UpdateTimer(now);
      }
    }

    /** `handleCardClick`. */
    method HandleCardClick()
      requires Valid()
      modifies this`showUncheckModal, this`calls
      ensures Valid()
      ensures ClickEffectOf(needsCheck, item.lastChecked) == CallCheck ==>
                calls == old(calls) + [OnCheck(item.id)] && showUncheckModal == old(showUncheckModal)
      ensures ClickEffectOf(needsCheck, item.lastChecked) == OpenModal ==>
                calls == old(calls) && showUncheckModal
      ensures ClickEffectOf(needsCheck, item.lastChecked) == NoEffect ==>
                calls == old(calls) && showUncheckModal == old(showUncheckModal)
    {
      if needsCheck {
        calls := calls + [OnCheck(item.id)];
      } else if item.lastChecked.Some? {
        showUncheckModal := true;
      }
    }

    /** The modal's cancel button: close it, call nothing. */
    method CancelUncheck()
      requires Valid()
      modifies this`showUncheckModal
      ensures Valid() && !showUncheckModal
      ensures calls == old(calls) && item == old(item)
      ensures needsCheck == old(needsCheck) && timeRemaining == old(timeRemaining)
    {
      showUncheckModal := false;
    }

    /** `handleUncheck`, the modal's confirm button: call `onUncheck` once and
        close the modal. */
    method HandleUncheck()
      requires Valid()
      modifies this`showUncheckModal, this`calls
      ensures Valid() && !showUncheckModal
      ensures calls == old(calls) + [OnUncheck(item.id)]
      ensures item == old(item)
    {
      calls := calls + [OnUncheck(item.id)];
      showUncheckModal := false;
    }

    /** The countdown overlay: `!needsCheck && timeRemaining`. */
    predicate CountdownVisible()
      reads this
      ensures CountdownVisible() ==> !NeedsCheckDotVisible()
      ensures Valid() && evaluatedAt.Some? ==>
                (CountdownVisible() <==> !NeedsCheck(evaluatedAt.value, item.lastChecked, item.resetHours))
    {
      !needsCheck && timeRemaining != ""
    }

    /** The grid card's red dot: `needsCheck`. */
    predicate NeedsCheckDotVisible()
      reads this
      ensures Valid() && evaluatedAt.Some? ==>
                (NeedsCheckDotVisible() <==> NeedsCheck(evaluatedAt.value, item.lastChecked, item.resetHours))
    {
      needsCheck
    }

    /** The card's `Icon`, with the cards' own seven-name map. */
    function Icon(): (v: CardIcon.IconView)
      reads this
      ensures item.iconType == Preset && item.icon in CardIcon.CardGlyphsAsWritten ==> v == CardIcon.Glyph(item.icon)
      ensures item.iconType == Preset && item.icon !in CardIcon.CardGlyphsAsWritten ==> v == CardIcon.Glyph(CardIcon.FallbackGlyph)
      ensures item.iconType == Upload ==> v == CardIcon.Image(if item.icon != "" then item.icon else CardIcon.PlaceholderImage)
    {
      CardIcon.CardIconAsWritten(item)
    }
  }

  /** After a tick, exactly one of the grid card's indicators is shown: the
      red dot while the item needs a check, the countdown while it does not. */
  lemma IndicatorsAfterTick(c: Card)
    requires c.Valid() && c.evaluatedAt.Some?
    ensures c.NeedsCheckDotVisible() <==> NeedsCheck(c.evaluatedAt.value, c.item.lastChecked, c.item.resetHours)
    ensures c.CountdownVisible() <==> !c.NeedsCheckDotVisible()
  {
  }

  /** After a tick, a click calls `onCheck` exactly when the item needs a
      check and opens the confirm modal whenever it does not. */
  lemma ClickAfterTick(c: Card)
    requires c.Valid() && c.evaluatedAt.Some?
    ensures ClickEffectOf(c.needsCheck, c.item.lastChecked)
              == if NeedsCheck(c.evaluatedAt.value, c.item.lastChecked, c.item.resetHours) then CallCheck else OpenModal
  {
    ClickAfterEvaluation(c.evaluatedAt.value, c.item.lastChecked, c.item.resetHours);
  }

  /** The two-step uncheck, from mount: on an item in cooldown at `now`, a
      click opens the confirm modal without calling anything; confirming then
      calls `onUncheck` exactly once, cancelling calls nothing at all. */
  method ConfirmOrCancel(item: ChecklistItem, now: int, confirm: bool) returns (made: seq<Callback>)
    requires !NeedsCheck(now, item.lastChecked, item.resetHours)
    ensures confirm ==> made == [OnUncheck(item.id)]
    ensures !confirm ==> made == []
  {
    var card := new Card(item);
    card.UpdateTimer(now);
    card.HandleCardClick();
    assert card.showUncheckModal;
    if confirm {
      card.HandleUncheck();
    } else {
      card.CancelUncheck();
    }
    made := card.calls;
  }
}
