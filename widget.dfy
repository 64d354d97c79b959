/** The to-do widget of `script.js` with the page abstracted away: the text
    of the `#task-value` input, the text of every `li` of `#task-list`, the
    text and the `show` class of `#error-msg`, the display state of the
    list panel, and the single `window.errorTimeout` slot together with the
    browser's queue of scheduled timers. Each user or timer event is one
    method that runs to completion. */
module Widget {
  import opened Strings

  datatype Option<T> = None | Some(value: T)

  /** The text `verifyTasks` puts into the error span on an empty task. */
  const EmptyTaskMessage: string := "Sorry, the activity should not be empty!"

  /** `Kept(n, gone)` lists, in increasing order, the numbers below `n`
      that are not in `gone`: the submissions, numbered in order, whose
      entries are still on the list when the ones in `gone` were deleted. */
  ghost function Kept(n: nat, gone: set<nat>): (r: seq<nat>)
    ensures |r| <= n
    ensures forall j :: 0 <= j < |r| ==> r[j] < n && r[j] !in gone
    ensures forall j, k :: 0 <= j < k < |r| ==> r[j] < r[k]
  {
    if n == 0 then []
    else Kept(n - 1, gone) + (if n - 1 in gone then [] else [n - 1])
  }

  /** No surviving submission is missing from `Kept`. */
  lemma {:induction false} KeptComplete(n: nat, gone: set<nat>, k: nat)
    requires k < n && k !in gone
    ensures k in Kept(n, gone)
  {
    if k < n - 1 {
      KeptComplete(n - 1, gone, k);
    }
  }

  /** Marking as gone a number `Kept` does not reach changes nothing. */
  lemma {:induction false} KeptBeyond(n: nat, gone: set<nat>, x: nat)
    requires n <= x
    ensures Kept(n, gone + {x}) == Kept(n, gone)
  {
    if n > 0 {
      KeptBeyond(n - 1, gone, x);
    }
  }

  /** Marking the `j`-th kept submission as gone removes exactly that one
      position from `Kept` and leaves the others in their order. */
  lemma {:induction false} KeptRemove(n: nat, gone: set<nat>, j: nat)
    requires j < |Kept(n, gone)|
    ensures Kept(n, gone + {Kept(n, gone)[j]}) == Kept(n, gone)[..j] + Kept(n, gone)[j + 1..]
  {
    var r := Kept(n, gone);
    var p := Kept(n - 1, gone);
    var x := r[j];
    if x == n - 1 {
      assert j == |r| - 1 && r == p + [n - 1];
      KeptBeyond(n - 1, gone, x);
      assert r[..j] + r[j + 1..] == p;
    } else {
      assert j < |p| && p[j] == x;
      KeptRemove(n - 1, gone, j);
      var tail := if n - 1 in gone then [] else [n - 1];
      assert r == p + tail;
      assert (n - 1 in gone + {x}) == (n - 1 in gone);
      assert r[..j] + r[j + 1..] == p[..j] + p[j + 1..] + tail;
    }
  }

  /** The page as the script sees it, plus the browser's timer queue. */
  class TodoApp {
    /** Value of the `#task-value` input field. */
    var input: string
    /** Text of each `li` of `#task-list`, in document order. */
    var tasks: seq<string>
    /** `textContent` of `#error-msg`. */
    var errorText: string
    /** Whether `#error-msg` carries the `show` class. */
    var errorShown: bool
    /** Whether `#task-list` has been given `display: block`. */
    var panelVisible: bool
    /** `window.errorTimeout`: the id of the last timer scheduled, if any. */
    var errorTimeout: Option<nat>
    /** Ids of the scheduled timers that have neither fired nor been cancelled. */
    var live: set<nat>
    /** The id the next `setTimeout` returns. */
    var nextTimer: nat

    /** Every accepted task text, in submission order. */
    ghost var accepted: seq<string>
    /** The submissions whose entries have been deleted. */
    ghost var removed: set<nat>
    /** For each `li`, the submission that created it. */
    ghost var ids: seq<nat>

    /** The error span and the timer slot: at most one timer is pending and
        it is the one in `window.errorTimeout`; ids are handed out fresh;
        the span is shown exactly while a timer is pending; its text is
        either empty or the rejection message, and the message is never
        on display without the `show` class. */
    ghost predicate TimerOk()
      reads this
    {
      && (errorTimeout.None? ==> live == {})
      && (errorTimeout.Some? ==> live <= {errorTimeout.value} && errorTimeout.value < nextTimer)
      && (errorShown <==> live != {})
      && (errorText == "" || errorText == EmptyTaskMessage)
      && (errorText == EmptyTaskMessage ==> errorShown)
    }

    /** The list: its entries are the accepted texts, in submission order,
        of the submissions not deleted; the panel is visible once anything
        has been accepted. */
    ghost predicate ListOk()
      reads this
    {
      && (forall k :: k in removed ==> k < |accepted|)
      && ids == Kept(|accepted|, removed)
      && |tasks| == |ids|
      && (forall j :: 0 <= j < |tasks| ==> tasks[j] == accepted[ids[j]])
      && panelVisible == (|accepted| > 0)
    }

    ghost predicate Wf()
      reads this
    {
      TimerOk() && ListOk()
    }

    /** `Wf` and, in addition, every entry is a non-empty trimmed text. */
    ghost predicate Valid()
      reads this
    {
      Wf() && forall j :: 0 <= j < |tasks| ==> tasks[j] != "" && IsTrimmed(tasks[j])
    }

    /** The page at load: empty input, empty hidden list, no message, no timer. */
    constructor ()
      ensures Valid()
      ensures input == "" && tasks == [] && errorText == "" && !errorShown && !panelVisible
      ensures errorTimeout == None && live == {} && accepted == [] && removed == {}
    {
      input, tasks := "", [];
      errorText, errorShown, panelVisible := "", false, false;
      errorTimeout, live, nextTimer := None, {}, 0;
      accepted, removed, ids := [], {}, [];
    }

    /** No accepted submission is silently dropped: every submission not
        deleted still has its entry, with its text, on the list. */
    lemma SubmissionStillListed(k: nat)
      requires Valid()
      requires k < |accepted| && k !in removed
      ensures exists j :: 0 <= j < |tasks| && ids[j] == k && tasks[j] == accepted[k]
    {
      KeptComplete(|accepted|, removed, k);
      var j :| 0 <= j < |ids| && ids[j] == k;
      assert tasks[j] == accepted[ids[j]];
    }

    /** `getInputValue`: the input field's value, trimmed. */
    function GetInputValue(): (r: string)
      reads this
      ensures IsTrimmed(r)
      ensures r == "" <==> AllSpace(input)
    {
      TrimShape(input);
      TrimEmpty(input);
      Trim(input)
    }

    /** The user edits the input field. */
    method SetInput(s: string)
      requires Valid()
      modifies this
      ensures Valid()
      ensures input == s
      ensures tasks == old(tasks) && errorText == old(errorText) && errorShown == old(errorShown)
      ensures panelVisible == old(panelVisible) && errorTimeout == old(errorTimeout)
      ensures live == old(live) && nextTimer == old(nextTimer)
      ensures accepted == old(accepted) && removed == old(removed)
    {
      input := s;
    }

    /** `verifyTasks`. On an empty trimmed input: the exact rejection
        message, the `show` class, the pending timer cancelled and a fresh
        one scheduled in its place, and `false`. Otherwise only the error
        text is cleared; the `show` class and a pending timer stay. */
    method VerifyTasks() returns (ok: bool)
      requires Wf()
      modifies this
      ensures Wf()
      ensures ok <==> Trim(input) != ""
      ensures input == old(input) && tasks == old(tasks) && panelVisible == old(panelVisible)
      ensures accepted == old(accepted) && removed == old(removed) && ids == old(ids)
      ensures !ok ==> && errorText == EmptyTaskMessage && errorShown
                      && errorTimeout == Some(old(nextTimer)) && live == {old(nextTimer)}
                      && nextTimer == old(nextTimer) + 1
      ensures ok ==> && errorText == "" && errorShown == old(errorShown)
                     && errorTimeout == old(errorTimeout) && live == old(live)
                     && nextTimer == old(nextTimer)
    {
      var toVerify := GetInputValue();
      if toVerify == "" {
        // clearTimeout(window.errorTimeout): a no-op when the slot is empty
        var cleared := if errorTimeout.Some? then live - {errorTimeout.value} else live;
        assert cleared == {};
        // the message and the `show` class, then window.errorTimeout = setTimeout(...)
        errorText, errorShown := EmptyTaskMessage, true;
        errorTimeout, live, nextTimer := Some(nextTimer), cleared + {nextTimer}, nextTimer + 1;
        return false;
      }
      errorText := "";
      return true;
    }

    /** `displayTasks`: the panel is made visible and one entry with the
        given text is appended at the end. */
    method DisplayTasks(value: string)
      requires Wf()
      modifies this
      ensures Wf()
      ensures tasks == old(tasks) + [value] && panelVisible
      ensures accepted == old(accepted) + [value] && removed == old(removed)
      ensures input == old(input) && errorText == old(errorText) && errorShown == old(errorShown)
      ensures errorTimeout == old(errorTimeout) && live == old(live) && nextTimer == old(nextTimer)
    {
      assert |accepted| !in removed;
      panelVisible := true;
      tasks, accepted, ids := tasks + [value], accepted + [value], ids + [|accepted|];
    }

    /** The click handler of `#add-btn`. A rejected submission leaves the
        list and the input as they were; an accepted one appends the
        trimmed input as the last entry and empties the input. */
    method Submit() returns (isValid: bool)
      requires Valid()
      modifies this
      ensures Valid()
      ensures isValid <==> !AllSpace(old(input))
      ensures !isValid ==> && tasks == old(tasks) && input == old(input)
                           && accepted == old(accepted) && removed == old(removed)
                           && panelVisible == old(panelVisible)
                           && errorText == EmptyTaskMessage && errorShown
                           && errorTimeout == Some(old(nextTimer)) && live == {old(nextTimer)}
                           && nextTimer == old(nextTimer) + 1
      ensures isValid ==> && tasks == old(tasks) + [Trim(old(input))] && input == ""
                          && accepted == old(accepted) + [Trim(old(input))] && removed == old(removed)
                          && panelVisible
                          && errorText == "" && errorShown == old(errorShown)
                          && errorTimeout == old(errorTimeout) && live == old(live)
                          && nextTimer == old(nextTimer)
    {
      TrimEmpty(input);
      isValid := VerifyTasks();
      if isValid {
        var taskValue := GetInputValue();
        DisplayTasks(taskValue);
        input := "";
      }
    }

    /** The click handler of the trash icon of the `i`-th entry
        (`li.remove()`): that entry goes, the others keep their text and
        their order, and nothing else on the page changes. */
    method Delete(i: nat)
      requires Valid()
      requires i < |tasks|
      modifies this
      ensures Valid()
      ensures tasks == old(tasks[..i] + tasks[i + 1..])
      ensures accepted == old(accepted) && removed == old(removed) + {old(ids[i])}
      ensures input == old(input) && errorText == old(errorText) && errorShown == old(errorShown)
      ensures panelVisible == old(panelVisible) && errorTimeout == old(errorTimeout)
      ensures live == old(live) && nextTimer == old(nextTimer)
    {
      ghost var oldTasks, oldIds := tasks, ids;
      assert ids[..i] + ids[i + 1..] == Kept(|accepted|, removed + {ids[i]}) by {
        KeptRemove(|accepted|, removed, i);
      }
      tasks, removed, ids := tasks[..i] + tasks[i + 1..], removed + {ids[i]}, ids[..i] + ids[i + 1..];
      forall j | 0 <= j < |tasks|
        ensures tasks[j] == accepted[ids[j]] && tasks[j] != "" && IsTrimmed(tasks[j])
      {
        var k := if j < i then j else j + 1;
        assert tasks[j] == oldTasks[k] && ids[j] == oldIds[k];
      }
    }

    /** The timer with id `t` comes due. Only a timer still pending runs its
        callback, which removes the `show` class and empties the error text;
        the only timer that can be pending is the last one scheduled. The
        list, the input and the panel are never touched. */
    method TimerFires(t: nat)
      requires Valid()
      modifies this
      ensures Valid()
      ensures t in old(live) ==> old(errorTimeout) == Some(t)
      ensures t in old(live) ==> errorText == "" && !errorShown && live == {}
      ensures t !in old(live) ==> errorText == old(errorText) && errorShown == old(errorShown)
                                  && live == old(live)
      ensures tasks == old(tasks) && input == old(input) && panelVisible == old(panelVisible)
      ensures errorTimeout == old(errorTimeout) && nextTimer == old(nextTimer)
      ensures accepted == old(accepted) && removed == old(removed)
    {
      if t in live {
        errorShown := false;
        errorText := "";
        live := live - {t};
      }
    }
  }
}
