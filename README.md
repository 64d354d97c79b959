# To-do list widget, modelled in Dafny

`script.js` drives a small to-do page. The page has a task input (`#task-value`), an add button (`#add-btn`), an error span (`#error-msg`) and a list (`#task-list`). Clicking the add button trims the input. If the trimmed text is empty, the error span `#error-msg` shows the message "Sorry, the activity should not be empty!" and gets the `show` class. A single timeout kept in `window.errorTimeout` clears both after three seconds, and each later rejection cancels that timeout and starts a new one. Otherwise the handler appends the trimmed text as a new list entry with a trash icon, reveals the list and empties the input. Clicking a trash icon removes that entry.

The model replaces the page with the state the script reads and writes:

- `strings.dfy` (module `Strings`): `String.prototype.trim` as `Trim`, over the fixed ECMAScript whitespace set `IsSpace`. Lemmas characterise what it removes and what it keeps.
- `widget.dfy` (module `Widget`): the class `TodoApp`. It has one field per piece of page state:
  - the input text `input`,
  - the entry texts `tasks`,
  - the span text `errorText` and its `show` class `errorShown`,
  - the panel's display state `panelVisible`,
  - the `window.errorTimeout` slot `errorTimeout`,
  - the browser's set of still-pending timers `live`, with the next timer id `nextTimer`.

  Each event is one method: `Submit` is the add-button handler, `Delete` is the trash-icon handler and `TimerFires` is the timeout callback. They use `GetInputValue`, `VerifyTasks` and `DisplayTasks` as the script does.

  Ghost fields record every accepted text (`accepted`), the deleted submissions (`removed`) and which submission each entry came from (`ids`). The class invariant `Valid` ties the list to that history: the list is the accepted texts in submission order, minus the deleted ones (`Kept`). The invariant also says:
  - at most one timer is pending, and it is the one in the slot;
  - `show` is set exactly while a timer is pending;
  - the panel is visible from the first accepted task on.
- `scenarios.dfy` (module `Scenarios`): concrete runs from page load, each with its outcome stated as a postcondition.

The script's own comments promise more than it does. The doc comment of `verifyTasks` (`script.js:21-22`) says it "clears any error message" on valid input, and the comment at `script.js:48` reads "Clear error and reset input". Line 49 only sets the span's text to `""`: the `show` class and any pending timer stay until that timer fires, and the input is reset later, by the click handler (`script.js:104`). The model follows the code. `VerifyTasks`, `Submit` and `Scenarios.AcceptAfterReject` state the gap explicitly.

## Model

| member | source | states |
|---|---|---|
| `Strings.TrimStartShape` | script.js:15 | the leading-whitespace pass keeps exactly the suffix after an all-whitespace prefix, and that suffix starts with a non-whitespace character or is empty |
| `Strings.TrimEndShape` | script.js:15 | the trailing-whitespace pass keeps exactly the prefix before an all-whitespace suffix, and that prefix ends with a non-whitespace character or is empty |
| `Strings.TrimShape` | script.js:14-16 | the trimmed input is the slice of the input between an all-whitespace prefix and an all-whitespace suffix, with no whitespace at either end |
| `Strings.TrimEmpty` | script.js:15 | the trimmed input is `""` exactly when the input is whitespace only |
| `Strings.TrimStartSkips` | script.js:15 | any all-whitespace prefix in front of a non-whitespace start is removed entirely and nothing more |
| `Strings.TrimEndSkips` | script.js:15 | any all-whitespace suffix after a non-whitespace end is removed entirely and nothing more |
| `Strings.TrimUnique` | script.js:14-16 | whatever whitespace surrounds a trimmed string, trimming returns exactly that string |
| `Strings.TrimFixesTrimmed` | script.js:15 | a string with no whitespace at either end is unchanged by trimming |
| `Strings.TrimIdempotent` | script.js:14-16 | trimming the result of trimming again changes nothing |
| `Widget.Kept` | script.js:77-83 | the surviving submission numbers are below the submission count, are not deleted and are strictly increasing, so entries stay in submission order |
| `Widget.KeptComplete` | script.js:83 | every accepted submission that was not deleted is still among the survivors: nothing accepted is dropped |
| `Widget.KeptRemove` | script.js:77-79 | deleting the j-th surviving submission removes exactly position j and leaves the others in their order |
| `Widget.TodoApp.constructor` | script.js:93-109 | at page load the input is empty, the list is empty and hidden, there is no message and no timer |
| `Widget.TodoApp.SubmissionStillListed` | script.js:101-104 | every accepted, undeleted submission has an entry on the list carrying its accepted text |
| `Widget.TodoApp.GetInputValue` | script.js:14-16 | the value returned has no whitespace at either end and is empty exactly when the field holds only whitespace |
| `Widget.TodoApp.VerifyTasks` | script.js:26-52 | returns false exactly on an empty trimmed input. It then sets the exact message and `show`, cancels the pending timer and puts a fresh one in the slot as the only pending timer. Otherwise it returns true and clears only the text, leaving `show`, the slot and the pending timer untouched; the list and input are unchanged either way |
| `Widget.TodoApp.DisplayTasks` | script.js:60-84 | makes the panel visible and appends exactly one entry with the given text at the end; nothing else changes |
| `Widget.TodoApp.Submit` | script.js:95-106 | a rejected submission leaves the list, the input and the panel unchanged and shows the message with a fresh single timer. An accepted one appends the trimmed input as the last entry, empties the input, shows the panel and leaves `show` and the timer as they were. The list invariant is kept |
| `Widget.TodoApp.Delete` | script.js:77-79 | removes exactly the clicked entry; the others keep their text and order; the panel stays as it was, even when the list becomes empty |
| `Widget.TodoApp.TimerFires` | script.js:40-43 | only a pending timer runs, and it is the latest one scheduled. Its firing empties the text and removes `show`; a cancelled timer changes nothing. The list, the input and the panel never change |
| `Scenarios.SubmitPaddedTask` | script.js:95-106 | " Buy milk " becomes the single entry "Buy milk", and the input becomes "" |
| `Scenarios.RejectEmptyTask` | script.js:32-45 | "" adds nothing, shows the exact message with `show`, and the message is gone once its timer fires |
| `Scenarios.RejectBlankTask` | script.js:98-105 | a whitespace-only input adds nothing, shows the message and stays in the field |
| `Scenarios.RejectTwice` | script.js:36-43 | two rejections leave one pending timer; the first timer's firing changes nothing and the second's clears the message |
| `Scenarios.AddTwoDeleteFirst` | script.js:71-83 | "A" then "B" are listed as ["A", "B"]; deleting the first leaves ["B"], and the panel is visible |
| `Scenarios.DeleteOnlyTask` | script.js:67 | deleting the only entry empties the list but leaves the panel visible |
| `Scenarios.AcceptAfterReject` | script.js:48-51 | a valid submission after a rejection empties the text at once but keeps `show` and the pending timer; `show` goes only when that timer fires |

## Left out

- The DOM itself is left out: `getElementById`, `createElement`, `appendChild`, `classList` and the `addEventListener` registrations. Each element becomes a field of `TodoApp` and each registered handler a method.
- Presentation is left out: the `set-task`, `fa-solid` and `fa-trash` classes and the icon's margin and cursor. They do not affect behaviour.
- `event.preventDefault()` is left out; it only stops browser navigation.
- Real time is left out: the 3000 ms delay and the browser's scheduling. A timer is an id handed out by `setTimeout`; `TimerFires(t)` is the event that timer `t` comes due. A cancelled or already-fired timer never runs its callback, which the model expresses as a no-op.
- The user typing is the method `TodoApp.SetInput`. It has no counterpart in the script.
- The page's initial state comes from markup, which is not part of this model. The model assumes an empty input, an empty hidden list and an empty error span.
- `Strings.IsSpace` is the ECMAScript whitespace and line-terminator set with the space separators of Unicode 15. A later Unicode version that adds space separators is not followed.
- The add-button handler reads the input twice (script.js:28 and 102). Both reads happen in one synchronous handler, so the model reads the same value twice.
- `TodoApp.Delete` takes the position of the entry whose icon is clicked and requires it to be on the list. An icon of a removed entry is no longer on the page, so it cannot be clicked, and the model has no separate element identity for removed entries.
- The four elements `#task-value`, `#add-btn`, `#error-msg` and `#task-list` are assumed to exist. If `getElementById` returns null, the script throws a TypeError (`script.js:15`, `29`, `62`, `95`), and the model has no such failure.
- A Dafny `string` holds Unicode scalar values, while a JavaScript string is UTF-16 and can contain lone surrogates. Inputs with lone surrogates are not modelled. They would not change what `trim` returns, because every whitespace code point lies in the Basic Multilingual Plane.
