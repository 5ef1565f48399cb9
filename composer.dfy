/**
 * The category picker bound to the message-compose form: the send-button
 * predicate recomputed on `change`/`input`, and the wrapped `form.onsubmit`
 * that refuses to send without a category and files the conversation under
 * the chosen category afterwards.
 */
module Composer {
  import opened Wrappers
  import opened CategoryStore

  /** The values of the picker's real options (Design, Developer, Other Topic). */
  const Categories: set<string> := {"Design", "Dev", "Oth.."}

  /** Every value the `<select>` can hold: the disabled placeholder "" or a real option. */
  const SelectValues: set<string> := {""} + Categories

  /**
   * The characters `String.prototype.trim` strips: the ECMAScript WhiteSpace
   * code points (tab, vertical tab, form feed, no-break space, byte order mark
   * and the space separators) and the LineTerminator code points.
   */
  predicate IsSpace(c: char)
  {
    c in {'\t', '\n', '\U{000B}', '\U{000C}', '\r', ' ', '\U{00A0}', '\U{1680}',
          '\U{2000}', '\U{2001}', '\U{2002}', '\U{2003}', '\U{2004}', '\U{2005}',
          '\U{2006}', '\U{2007}', '\U{2008}', '\U{2009}', '\U{200A}', '\U{2028}',
          '\U{2029}', '\U{202F}', '\U{205F}', '\U{3000}', '\U{FEFF}'}
  }

  predicate AllSpace(s: string)
  {
    forall k :: 0 <= k < |s| ==> IsSpace(s[k])
  }

  /** `s` without its leading whitespace: the longest suffix that does not start with a space. */
  function TrimStart(s: string): (r: string)
    ensures |r| <= |s| && r == s[|s| - |r|..]
    ensures forall k :: 0 <= k < |s| - |r| ==> IsSpace(s[k])
    ensures r == [] || !IsSpace(r[0])
  {
    if |s| > 0 && IsSpace(s[0]) then TrimStart(s[1..]) else s
  }

  /** `s` without its trailing whitespace: the longest prefix that does not end with a space. */
  function TrimEnd(s: string): (r: string)
    ensures |r| <= |s| && r == s[..|r|]
    ensures forall k :: |r| <= k < |s| ==> IsSpace(s[k])
    ensures r == [] || !IsSpace(r[|r| - 1])
  {
    if |s| > 0 && IsSpace(s[|s| - 1]) then TrimEnd(s[..|s| - 1]) else s
  }

  /** `String.prototype.trim`. */
  function Trim(s: string): (r: string)
  {
    TrimEnd(TrimStart(s))
  }

  /** The trimmed text is empty exactly when the text is all whitespace (or empty). */
  lemma {:induction false} TrimEmptyIffBlank(s: string)
    ensures Trim(s) == "" <==> AllSpace(s)
  {
    var t := TrimStart(s);
    var d := |s| - |t|;
    if !AllSpace(s) {
      var k :| 0 <= k < |s| && !IsSpace(s[k]);
      assert d <= k;
      assert t[k - d] == s[k];
      assert !AllSpace(t);
    }
  }

  /**
   * `updateSendButton`: the button is disabled when no category is selected
   * or the compose text trims to nothing.
   */
  function SendDisabled(selected: string, text: string): (disabled: bool)
    ensures disabled <==> selected == "" || AllSpace(text)
  {
    TrimEmptyIffBlank(text);
    selected == "" || Trim(text) == ""
  }

  /** select="Dev" with no text disables the button; with "hello" it enables it. */
  lemma SendButtonExamples()
    ensures SendDisabled("Dev", "")
    ensures SendDisabled("Dev", " \n\t")
    ensures !SendDisabled("Dev", "hello")
    ensures !SendDisabled("Dev", "  hello ")
    ensures SendDisabled("", "hello")
  {
    assert !IsSpace("hello"[0]);
    assert !IsSpace("  hello "[2]);
  }

  /** What the page's own `onsubmit` returned: `false`, or anything else (including undefined). */
  datatype HandlerResult = ReturnedFalse | ReturnedOther

  /** How the wrapped `onsubmit` ends. */
  datatype SubmitOutcome =
    | Blocked                        // no category: default and propagation stopped, alert shown
    | Cancelled                      // the original handler returned false
    | Accepted(calledOriginal: bool) // the category store is scheduled

  predicate OriginalInvoked(o: SubmitOutcome)
  {
    o.Cancelled? || (o.Accepted? && o.calledOriginal)
  }

  /**
   * The decision of the wrapped `onsubmit`, given the selected value and the
   * page's own handler (None when the form had none).
   */
  function SubmitGate(selected: string, original: Option<HandlerResult>): (o: SubmitOutcome)
    ensures o.Blocked? <==> selected == ""
    ensures o.Cancelled? <==> selected != "" && original == Some(ReturnedFalse)
    ensures o.Accepted? <==> selected != "" && original != Some(ReturnedFalse)
    ensures OriginalInvoked(o) <==> selected != "" && original.Some?
  {
    if selected == "" then Blocked
    else if original.Some? then
      (if original.value == ReturnedFalse then Cancelled else Accepted(true))
    else Accepted(false)
  }

  /** The compose form once the picker is bound to it. */
  class ComposeForm {
    /** `select.value` */
    var selectValue: string
    /** `textarea.value` */
    var textValue: string
    /** Whether `button[data-testid="send-button"]` was found in the form. */
    const hasSendButton: bool
    /** `sendButton.disabled` */
    var sendDisabled: bool
    /** Whether the form had an `onsubmit` handler before the picker wrapped it. */
    const hasOriginalSubmit: bool
    /** Accepted submissions whose delayed category store has not run yet. */
    var pendingStores: nat

    ghost predicate Valid()
      reads this
    {
      selectValue in SelectValues && (pendingStores > 0 ==> selectValue != "")
    }

    /** Binding: the select starts on its placeholder; the button keeps the page's state. */
    constructor (text: string, hasSendButton: bool, disabled: bool, hasOriginalSubmit: bool)
      ensures Valid()
      ensures selectValue == "" && textValue == text && pendingStores == 0
      ensures this.hasSendButton == hasSendButton && sendDisabled == disabled
      ensures this.hasOriginalSubmit == hasOriginalSubmit
    {
      selectValue := "";
      textValue := text;
      this.hasSendButton := hasSendButton;
      sendDisabled := disabled;
      this.hasOriginalSubmit := hasOriginalSubmit;
      pendingStores := 0;
    }

    /** `updateSendButton`: only touches the button when there is one. */
    method UpdateSendButton()
      modifies this`sendDisabled
      ensures hasSendButton ==> (sendDisabled <==> selectValue == "" || AllSpace(textValue))
      ensures !hasSendButton ==> sendDisabled == old(sendDisabled)
    {
      if hasSendButton {
        sendDisabled := SendDisabled(selectValue, textValue);
      }
    }

    /** A `change` event: the user picked one of the real options. */
    method OnSelectChange(value: string)
      requires Valid() && value in Categories
      modifies this`selectValue, this`sendDisabled
      ensures Valid() && selectValue == value
      ensures hasSendButton ==> (sendDisabled <==> AllSpace(textValue))
      ensures !hasSendButton ==> sendDisabled == old(sendDisabled)
    {
      selectValue := value;
      UpdateSendButton();
    }

    /** An `input` event: the compose text changed. */
    method OnInput(text: string)
      requires Valid()
      modifies this`textValue, this`sendDisabled
      ensures Valid() && textValue == text
      ensures hasSendButton ==> (sendDisabled <==> selectValue == "" || AllSpace(text))
      ensures !hasSendButton ==> sendDisabled == old(sendDisabled)
    {
      textValue := text;
      UpdateSendButton();
    }

    /**
     * The wrapped `onsubmit`. `originalResult` is what the page's own handler
     * returns if it is called. Only an accepted submission schedules a store;
     * no outcome touches the category map at this step.
     */
    method Submit(originalResult: HandlerResult) returns (outcome: SubmitOutcome)
      requires Valid()
      modifies this`pendingStores
      ensures Valid()
      ensures outcome == SubmitGate(selectValue, if hasOriginalSubmit then Some(originalResult) else None)
      ensures outcome.Blocked? <==> selectValue == ""
      ensures pendingStores == old(pendingStores) + (if outcome.Accepted? then 1 else 0)
    {
      if selectValue == "" {
        outcome := Blocked;
        return;
      }
      if hasOriginalSubmit {
        if originalResult == ReturnedFalse {
          outcome := Cancelled;
          return;
        }
      }
      outcome := Accepted(hasOriginalSubmit);
      pendingStores := pendingStores + 1;
    }

    /**
     * The delayed part of an accepted submission: file the conversation under
     * the heading's text (or "New Chat") with the category selected now, and
     * write the map to storage. The category is always a real option.
     */
    method CompleteStore(store: Store, heading: Option<string>)
      requires Valid() && pendingStores > 0
      modifies this`pendingStores, store
      ensures Valid() && pendingStores == old(pendingStores) - 1
      ensures store.chatCategories == old(store.chatCategories)[TitleKey(heading) := selectValue]
      ensures selectValue in Categories
      ensures store.persisted == Some(store.chatCategories)
    {
      store.Record(TitleKey(heading), selectValue);
      pendingStores := pendingStores - 1;
    }
  }
}
