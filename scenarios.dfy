/** Runs of the widget from page load, one per concrete scenario the
    behaviour of `script.js` fixes. */
module Scenarios {
  import opened Strings
  import opened Widget

  /** " Buy milk " submitted: one entry "Buy milk", and the input is emptied. */
  method SubmitPaddedTask() returns (list: seq<string>, field: string)
    ensures list == ["Buy milk"] && field == ""
  {
    var app := new TodoApp();
    app.SetInput(" Buy milk ");
    assert " Buy milk " == [' '] + "Buy milk" + [' '];
    TrimUnique([' '], "Buy milk", [' ']);
    var ok := app.Submit();
    list, field := app.tasks, app.input;
  }

  /** "" submitted: nothing is listed, the exact message shows, and once the
      pending timer fires the message is gone. */
  method RejectEmptyTask() returns (list: seq<string>, during: string, shown: bool, after: string)
    ensures list == [] && during == EmptyTaskMessage && shown && after == ""
  {
    var app := new TodoApp();
    var ok := app.Submit();
    list, during, shown := app.tasks, app.errorText, app.errorShown;
    app.TimerFires(app.errorTimeout.value);
    after := app.errorText;
  }

  /** Two rejections in a row leave one pending timer; the first one's
      firing changes nothing, the second one's clears the message. */
  method RejectTwice() returns (pending: nat, afterFirst: string, afterSecond: string)
    ensures pending == 1 && afterFirst == EmptyTaskMessage && afterSecond == ""
  {
    var app := new TodoApp();
    var ok := app.Submit();
    var first := app.errorTimeout.value;
    ok := app.Submit();
    var second := app.errorTimeout.value;
    pending := |app.live|;
    app.TimerFires(first);
    afterFirst := app.errorText;
    app.TimerFires(second);
    afterSecond := app.errorText;
  }

  /** "A" then "B": both listed in submission order; deleting the first
      leaves only "B", and the panel stays visible. */
  method AddTwoDeleteFirst() returns (both: seq<string>, rest: seq<string>, visible: bool)
    ensures both == ["A", "B"] && rest == ["B"] && visible
  {
    var app := new TodoApp();
    assert "A"[0] == 'A' && "B"[0] == 'B';
    TrimFixesTrimmed("A");
    TrimFixesTrimmed("B");
    app.SetInput("A");
    var ok := app.Submit();
    app.SetInput("B");
    ok := app.Submit();
    both := app.tasks;
    app.Delete(0);
    rest, visible := app.tasks, app.panelVisible;
  }

  /** Deleting the only entry empties the list but does not hide the panel. */
  method DeleteOnlyTask() returns (list: seq<string>, visible: bool)
    ensures list == [] && visible
  {
    var app := new TodoApp();
    assert "A"[0] == 'A';
    app.SetInput("A");
    var ok := app.Submit();
    app.Delete(0);
    list, visible := app.tasks, app.panelVisible;
  }

  /** A whitespace-only input is rejected: no entry, and the field keeps
      what was typed. */
  method RejectBlankTask() returns (list: seq<string>, field: string, text: string)
    ensures list == [] && field == " \t " && text == EmptyTaskMessage
  {
    var app := new TodoApp();
    app.SetInput(" \t ");
    assert AllSpace(" \t ");
    var ok := app.Submit();
    list, field, text := app.tasks, app.input, app.errorText;
  }

  /** Accepting a task after a rejection empties the message text at once,
      but the `show` class and the timer stay until the timer fires. */
  method AcceptAfterReject() returns (text: string, shown: bool, pending: nat, shownLater: bool)
    ensures text == "" && shown && pending == 1 && !shownLater
  {
    var app := new TodoApp();
    var ok := app.Submit();
    var t := app.errorTimeout.value;
    assert "A"[0] == 'A';
    TrimFixesTrimmed("A");
    app.SetInput("A");
    ok := app.Submit();
    assert ok;
    text, shown, pending := app.errorText, app.errorShown, |app.live|;
    app.TimerFires(t);
    shownLater := app.errorShown;
  }
}
