# H24Code Partage client: a Dafny model of its logic

This project models the logic of the H24Code Partage web client, which lists,
filters and adds code snippets. The client is written in React. Two components
hold all of its logic.

- The listing page (`src/App.jsx`) does the following:
  - It filters the collection by category chip and by search box.
  - It counts the snippets of each category.
  - It escapes each snippet's code and colours it through a fixed series of
    regular-expression passes per language.
  - It keeps a "copied" flag per snippet and a single message slot. Both are
    reset by timers.
- The add page (`page/AddSnippetPage.jsx`) keeps the form record and a
  `loading` flag. The flag guards against double submission. The page also:
  - turns the server's validation errors into one message;
  - counts lines and characters;
  - turns the Tab key into two spaces.

How the model is laid out:

- Value-level code is written as datatypes, functions and lemmas:
  - `Snippets`: the filter engine and the counters.
  - `Highlighter`: the escape, the passes and what they insert.
  - `AddSnippet`: the form helpers and the error text.
  - `Text`: the string primitives all of them rely on, namely ASCII
    lower-casing, substring search, character replacement, split and join,
    and JavaScript's UTF-16 string length.
- State that the components update through their React setters is modelled as
  two classes. Their methods have `modifies` frames.
  - `Board.SnippetBoard` is the listing page.
  - `AddSnippet.AddSnippetForm` is the add page.
- `setTimeout` is modelled by `Timers`: a queue of pending callbacks against a
  logical clock, in milliseconds.
  - A callback fires at its due time. When several are due together, the one
    scheduled first fires first.
  - No timer is ever cancelled or restarted, because the components never
    cancel one.
  - As a result, a stale timer can reset a newer "copied" flag early, or
    clear a newer message early. `Board.StaleCopyResetScenario` and
    `Board.StaleMessageClearScenario` show both.

Each global `replace` is modelled as a scanner:
- At each position, the pattern is tried with the backtracking order of that
  fixed pattern worked out by hand.
- On a match, the scanner emits `<span style="color: C">$1</span>$2` and
  continues after the match.
- Otherwise it emits the character and moves on by one.

What is proved about the passes:
- A pass only inserts markup. Erasing its pieces gives back its input for
  every input (`EraseScan`).
- On escaped text, which has no `<`, removing the pass's `<span …>` and
  `</span>` gives back the input (`PassRoundTrip`).
- The same does not hold for a whole category pipeline. A later pass can match
  inside the markup of an earlier one (`QuotedMatchesInsideKeywordSpan`,
  `PropertyMatchesInsideSelectorSpan`).

## Model

| member | source | states |
|---|---|---|
| Text.Includes | src/App.jsx:385-387 | definition of `includes`: the needle occurs at some offset; its properties are in `IncludesInContext` and `MissingCharNotIncluded` |
| Text.ReplaceChar | src/App.jsx:703-704 | definition of a global one-character `replace`; its properties are in `ReplaceCharRemoves`, `ReplaceCharLength` and `ReplaceCharCountOther` |
| Text.SplitOn | page/AddSnippetPage.jsx:65 | definition of `split` on one character, always at least one piece; its properties are in `SplitOnFacts` |
| Text.Join | page/AddSnippetPage.jsx:51 | definition of `join`; its properties are in `JoinLength`, `SplitOnFacts` and `ErrorTextOfTwoFields` |
| Text.Lower | src/App.jsx:385-387 | `toLowerCase` keeps the length and lower-cases each character on its own (ASCII letters only) |
| Text.LowerIdempotent | src/App.jsx:385-387 | lower-casing a lower-cased string changes nothing |
| Text.IncludesInContext | src/App.jsx:385-387 | `includes` holds for a needle placed anywhere in the haystack |
| Text.MissingCharNotIncluded | src/App.jsx:385-387 | `includes` fails when the haystack lacks one of the needle's characters |
| Text.ReplaceCharRemoves | src/App.jsx:703-704 | replacing every `c` by a text without `c` leaves no `c` |
| Text.ReplaceCharLength | src/App.jsx:703-704 | each replaced character adds the length of the replacement minus one to the length |
| Text.ReplaceCharCountOther | src/App.jsx:703-704 | replacing `c` keeps the count of every other character absent from the replacement |
| Text.SplitOnFacts | page/AddSnippetPage.jsx:65 | `split('\n')` gives one piece more than there are newlines, no piece holds a newline, and joining the pieces with the newline gives the text back |
| Text.Utf16Length | page/AddSnippetPage.jsx:66 | JavaScript's `length` is at least the number of characters and at most twice it |
| Text.Utf16LengthBasicPlane | page/AddSnippetPage.jsx:66 | a string of basic-plane characters has as many code units as characters |
| Text.Utf16LengthOutsideBasicPlane | page/AddSnippetPage.jsx:66 | a character outside the basic plane, such as an emoji, counts two |
| Text.Utf16LengthAppend | page/AddSnippetPage.jsx:66 | the length of a concatenation is the sum of the lengths |
| Text.JoinLength | page/AddSnippetPage.jsx:51 | `join(sep)` is as long as its parts plus one separator between each two |
| Snippets.MatchesSearch | src/App.jsx:383-388 | definition of the search predicate over title, present description and code; its properties are in `VisibleMember` and `SearchIgnoresCase` |
| Snippets.Visible | src/App.jsx:376-391 | definition of the view as one filter by the conjoined criteria; its properties are in `VisibleMember`, `VisibleUnfiltered`, `VisibleIsIntersection`, and `Board.SnippetBoard.FilterAndSearch` proves the two-step filter equal to it |
| Snippets.ComputeStats | src/App.jsx:476-481 | definition of `stats`; its properties are in `StatsAreCategoryViews` and `StatsPartition` |
| Snippets.Filter | src/App.jsx:380 | `Array.filter` keeps no more items than it is given, each from the input and accepted by the predicate |
| Snippets.FilterSelectsExactly | src/App.jsx:376-391 | the filtered list is the input's accepted items at strictly increasing indices, each accepted index appearing once: an order-preserving subsequence with nothing reordered or duplicated |
| Snippets.FilterMember | src/App.jsx:380 | an item is in the filtered list exactly when it is in the input and accepted |
| Snippets.FilterAll | src/App.jsx:377 | a filter that accepts everything returns its input |
| Snippets.FilterExt | src/App.jsx:380-388 | filters with predicates that agree on the items give the same list |
| Snippets.FilterFuse | src/App.jsx:379-388 | the category filter followed by the search filter is one filter by their conjunction |
| Snippets.VisibleUnfiltered | src/App.jsx:377-383 | with no category and no search term the view is the whole collection |
| Snippets.VisibleMember | src/App.jsx:376-391 | a snippet is visible exactly when it is in the collection, has the chosen category (when one is chosen), and its lower-cased title, present description or code contains the lower-cased term (when one is typed); a missing description never matches |
| Snippets.VisibleIsIntersection | src/App.jsx:379-388 | the view with both criteria holds exactly what the view by category and the view by term both hold |
| Snippets.SearchIgnoresCase | src/App.jsx:385-387 | searching for a term or for its lower-cased form keeps the same snippets |
| Snippets.FilterPair | src/App.jsx:380 | filtering two items keeps each one accepted, in order |
| Snippets.CategoryScenario | src/App.jsx:380 | the CSS chip on a PHP and a CSS snippet shows only the CSS one |
| Snippets.StatsAreCategoryViews | src/App.jsx:476-481 | each category counter is the size of the view filtered by that category alone |
| Snippets.StatsPartition | src/App.jsx:476-481 | when every snippet is PHP, HTML or CSS the three counters add up to the total |
| Highlighter.Escape | src/App.jsx:702-704 | definition of the escape chain; its properties are in `EscapeIsPerChar`, `EscapeRemovesAngles` and `EscapeLength` |
| Highlighter.Scan | src/App.jsx:439-451 | definition of a global replacement's scan into pieces; its properties are in `StepAt`, `EraseScan` and `ScanNoAngle` |
| Highlighter.ApplyPass | src/App.jsx:439-451 | definition of one replacement pass as the rendered scan; its properties are in `PassRoundTrip` |
| Highlighter.HighlightCode | src/App.jsx:422-455 | definition of `highlightCode`: the passes of each category in order; its properties are in `OtherCategoryOnlyEscapes`, `HtmlRoundTrip`, `QuotedMatchesInsideKeywordSpan` and `PropertyMatchesInsideSelectorSpan` |
| Highlighter.RenderCode | src/App.jsx:701-706 | definition of what the code box shows: `highlightCode` of the escaped code; its properties are in `HtmlRoundTrip` and `OtherCategoryOnlyEscapes` |
| Highlighter.EscapeIsPerChar | src/App.jsx:702-704 | the two global replacements equal escaping every character on its own |
| Highlighter.EscapeRemovesAngles | src/App.jsx:702-704 | the escaped code holds no `<` and no `>` |
| Highlighter.EscapeLength | src/App.jsx:702-704 | the escaped code is three characters longer than the code for each `<` and each `>` |
| Highlighter.OpenTag | src/App.jsx:439-451 | proof helper: the inserted `<span style="color: …">` begins with `<s`, which the strip lemmas use to tell it from escaped text |
| Highlighter.AlternationAt | src/App.jsx:439 | a whole-word alternation matches at a position exactly when a word boundary is there and one of the alternatives ends at a word boundary; the match is that whole alternative, namely the first one in written order that matches (`KeywordFrom`). The keyword pass applies it to the 18 keywords in their written order |
| Highlighter.KeywordFrom | src/App.jsx:439 | the alternation is tried in its written order and the first alternative that matches is taken |
| Highlighter.QuotedAt | src/App.jsx:441 | `(["'])([^"']*)\1` matches exactly when the next quote after the opening one is of the same kind; the match holds no other quote |
| Highlighter.VariableAt | src/App.jsx:443 | `(\$\w+)` matches exactly when `$` is followed by a word character, and takes the longest run of word characters |
| Highlighter.TagAsWrittenAt | src/App.jsx:446 | the tag pattern as written matches exactly when `&lt;` is followed by a non-empty run free of `&`, `g`, `t` and `;` and that run is followed by `&gt;`; the match ends at that `&gt;` |
| Highlighter.TagAt | src/App.jsx:446 | the tag pattern as intended matches exactly when `&lt;` is followed, after a non-empty content, by a `&gt;`; the match ends at the first `&gt;` |
| Highlighter.SelectorAt | src/App.jsx:449 | the selector pattern matches exactly when an optional `.` or `#`, a non-empty longest name, blanks and `{` follow; the prefix and name are wrapped (never the prefix alone) and the blanks and brace are re-emitted |
| Highlighter.PropertyAt | src/App.jsx:451 | the property pattern matches exactly when a non-empty longest name, blanks and `:` follow; the name is wrapped and the blanks and colon are re-emitted |
| Highlighter.MatchAt | src/App.jsx:439-451 | every pass's match is non-empty and lies inside the text |
| Highlighter.StepAt | src/App.jsx:439-451 | one step of the global replacement consumes at least one character and its piece holds exactly the consumed text |
| Highlighter.EraseScan | src/App.jsx:439-451 | erasing the inserted markup from a pass's pieces gives back the pass's input, for every input |
| Highlighter.StripRender | src/App.jsx:439-451 | removing the pass's `<span …>` and `</span>` from its rendered pieces gives the erased text when the pieces hold no `<` |
| Highlighter.PassRoundTrip | src/App.jsx:439-451 | on a text without `<`, removing a pass's markup from its output gives back its input |
| Highlighter.HtmlRoundTrip | src/App.jsx:444-446 | removing the tag spans from the rendered HTML gives back the escaped code |
| Highlighter.OtherCategoryOnlyEscapes | src/App.jsx:435-454 | a category other than PHP, HTML and CSS is returned unchanged, so the box shows the escaped code, free of `<` and `>` |
| Highlighter.QuotedMatchesInsideKeywordSpan | src/App.jsx:439-441 | the string pass matches the `"color: #569cd6"` attribute inside a keyword span |
| Highlighter.PropertyMatchesInsideSelectorSpan | src/App.jsx:449-451 | the property pass matches `color:` inside a selector span |
| Highlighter.TagAsWrittenMissesNamesWithGT | src/App.jsx:446 | as written, an escaped tag whose name holds `g`, `t` or `;` is not matched |
| Highlighter.TagWrapsEveryTag | src/App.jsx:446 | as intended, every escaped tag whose name holds no `&` is matched whole |
| Timers.Schedule | src/App.jsx:409-414 | definition of `setTimeout`: one timer appended, due `delay` after now; its properties are in `ScheduleCancelsNothing` |
| Timers.Pop | src/App.jsx:460-462 | definition of firing the earliest timer; its properties are in `PopFacts` and `Earliest` |
| Timers.Empty | src/App.jsx:409-414 | no callback is pending at start |
| Timers.ScheduleCancelsNothing | src/App.jsx:409-414 | `setTimeout` adds one callback due `delay` later and keeps every pending one |
| Timers.Earliest | src/App.jsx:460-462 | the next callback to fire has the smallest due time, and it is the first scheduled among equals |
| Timers.PopFacts | src/App.jsx:460-462 | firing removes exactly that callback and moves the clock to its due time, never backwards |
| Timers.Advance | src/App.jsx:460-462 | time passes without any callback falling due and the queue is kept |
| Board.SnippetBoard.constructor | src/App.jsx:5-10 | the page starts with an empty collection and view, no criteria, no flags and an empty message |
| Board.SnippetBoard.FilterAndSearch | src/App.jsx:376-392 | the two successive filters store exactly the view of the collection for the current criteria |
| Board.SnippetBoard.SnippetsLoaded | src/App.jsx:360-363 | a successful load stores the collection, and the view is recomputed for it |
| Board.SnippetBoard.SetFilter | src/App.jsx:471-473 | a new category recomputes the view |
| Board.SnippetBoard.SetSearchTerm | src/App.jsx:471-473 | a new search term recomputes the view |
| Board.SnippetBoard.ShowMessage | src/App.jsx:458-463 | the slot holds the message and one clearing is scheduled 5000 ms later, without cancelling earlier ones |
| Board.SnippetBoard.CopyCode | src/App.jsx:398-419 | a successful copy sets that snippet's flag, leaves the other flags alone and schedules its reset in 2000 ms; a failed copy leaves the flags alone and posts the error message |
| Board.SnippetBoard.FireNext | src/App.jsx:409-414 | the earliest callback fires: a reset sets only that snippet's flag to false, a clear empties the slot |
| Board.SnippetBoard.Elapse | src/App.jsx:409-414 | time passes while nothing falls due |
| Board.StaleCopyResetScenario | src/App.jsx:409-414 | copying again 1500 ms later does not restart the delay: the first reset fires at 2000 ms and clears the second copy's flag |
| Board.StaleMessageClearScenario | src/App.jsx:458-463 | a message posted 1000 ms after another is cleared by the first clearing, at 5000 ms |
| AddSnippet.FormData.With | page/AddSnippetPage.jsx:20-23 | the record update sets the named field and keeps the other three |
| AddSnippet.GetCodeStats | page/AddSnippetPage.jsx:64-68 | definition of `getCodeStats`; its properties are in `CodeStatsFacts` |
| AddSnippet.CodeStatsFacts | page/AddSnippetPage.jsx:64-68 | the line count is the number of newlines plus one, so at least one; the character count is the UTF-16 length, between the number of characters and twice it, and equal to it when no character lies outside the basic plane |
| AddSnippet.InsertTab | page/AddSnippetPage.jsx:79-88 | the new code is the text before the selection, two spaces, then the text after it, with the resulting length, and the cursor goes to `start + 2` |
| AddSnippet.Values | page/AddSnippetPage.jsx:51 | `Object.values` lists the values in the members' order |
| AddSnippet.Flat | page/AddSnippetPage.jsx:51 | definition of the one-level `flat`; its properties are in `FlatAppend` and `FlatSize` |
| AddSnippet.ErrorText | page/AddSnippetPage.jsx:50-52 | definition of the error text; its properties are in `ErrorTextOfTwoFields`, `ErrorTextOfTwoNonEmptyFields`, `ErrorTextRequiredFields` and `ErrorTextWithoutErrors` |
| AddSnippet.FlatAppend | page/AddSnippetPage.jsx:51 | flattening one level distributes over concatenation |
| AddSnippet.FlatSize | page/AddSnippetPage.jsx:51 | flattening one level yields one message per listed message and one per single value |
| AddSnippet.ErrorTextOfTwoFields | page/AddSnippetPage.jsx:50-52 | with an `errors` object of two fields, the text is the first field's messages followed by the second's, all joined with ", ", whatever `error` says; a field with no message adds nothing |
| AddSnippet.ErrorTextOfTwoNonEmptyFields | page/AddSnippetPage.jsx:50-52 | when both fields carry messages, the text is the first field's joined messages, ", ", then the second field's |
| AddSnippet.ErrorTextRequiredFields | page/AddSnippetPage.jsx:50-52 | `{title: ["is required"], category: ["is required"]}` gives "is required, is required" |
| AddSnippet.ErrorTextWithoutErrors | page/AddSnippetPage.jsx:50-52 | without `errors`, a non-empty `error` is used, otherwise the fallback text; the text is never empty |
| AddSnippet.AddSnippetForm.constructor | page/AddSnippetPage.jsx:8-16 | the form starts with four empty fields, idle, with an empty message |
| AddSnippet.AddSnippetForm.HandleInputChange | page/AddSnippetPage.jsx:18-24 | only the named field changes |
| AddSnippet.AddSnippetForm.HandleKeyDown | page/AddSnippetPage.jsx:71-91 | Tab replaces the selection by two spaces and moves the cursor after them; any other key changes nothing |
| AddSnippet.AddSnippetForm.ShowMessage | page/AddSnippetPage.jsx:298-303 | the slot holds the message and one clearing is scheduled 5000 ms later |
| AddSnippet.AddSnippetForm.HandleSubmit | page/AddSnippetPage.jsx:26-42 | a submit while loading sends nothing and changes nothing; from idle it raises the flag and sends the form |
| AddSnippet.AddSnippetForm.SubmitSettled | page/AddSnippetPage.jsx:45-60 | a success posts the success message and empties the form; a rejection posts its error text and a thrown error the connection message, leaving the form as it is; the flag comes down in every case |
| AddSnippet.AddSnippetForm.FireNext | page/AddSnippetPage.jsx:300-302 | the earliest clearing fires and empties the slot |
| AddSnippet.AddSnippetForm.Elapse | page/AddSnippetPage.jsx:300-302 | time passes while nothing falls due |
| AddSnippet.DoubleSubmitScenario | page/AddSnippetPage.jsx:29 | two submits before the response sends one request, and the flag is down once it has settled |
| AddSnippet.RejectedSubmitScenario | page/AddSnippetPage.jsx:45-59 | a rejection for two required fields shows "is required, is required" as an error, keeps the typed form and lowers the flag |

## Left out

- Network I/O is not modelled: the `fetch` of the collection (src/App.jsx:351-373) and the POST of the form (page/AddSnippetPage.jsx:33-43). The response is an input instead: `SnippetsLoaded` for a successful load, and `Response` (ok, rejected with a body, or thrown) for the submission. The load's error messages are `ShowMessage` calls with their texts.
- The clipboard write (src/App.jsx:400) is a boolean parameter of `CopyCode`.
- The listing page's own `loading` flag (src/App.jsx:7, 352, 371) is not modelled. It only chooses between the spinner and the list when rendering.
- Navigation, the links and the 1500 ms redirect after a successful submission (page/AddSnippetPage.jsx:48) are left out. They change no state of the model.
- Rendering is left out: the JSX, the `styles` objects, and the hover and focus handlers that set DOM styles. The colours `comment` and `value` are never used; the selector pass uses `function`.
- Real time and React's rendering are left out. Timers fire one at a time against a logical clock. React's asynchronous state updates and closure capture are not modelled: two clicks read the state the first one left, as if the component re-rendered between them.
- Lower: lower-cases ASCII letters only, not the full Unicode mapping of `toLowerCase`.
- ErrorText: `errors` is a list of members, each an array of messages or a single value. `Object.values` ordering for integer-like keys and the flattening of non-string values are not modelled.
- HandleKeyDown: requires `start <= end <= |code|`. The browser guarantees this of a selection, and JavaScript's clamping of out-of-range `substring` bounds is not modelled.
- HandleKeyDown: the selection positions are counted in characters, while the browser counts UTF-16 code units. The two differ after a character outside the basic plane, such as an emoji.
- HandleKeyDown: the cursor is returned at once. The page moves it in a 0 ms `setTimeout` (page/AddSnippetPage.jsx:87-89), after the re-render.
- HighlightCode: the HTML pass uses the tag pattern as intended (`TagAt`). The pattern as written is kept as `TagAsWrittenAt`; see Findings.
- The round trip "removing all markup gives back the escaped code" is proved per pass and for HTML only. For PHP and CSS it does not hold, because later passes match inside earlier markup.
- The timers have no restart or replace semantics. No timer is ever cancelled, and the model follows that.
- `page/SnippetsList.jsx` holds no logic and is not part of this model.

## Findings

| source | as written | input that shows it | evidently intended | confidence | as-written member | corrected member |
|---|---|---|---|---|---|---|
| src/App.jsx:446 | `[^&gt;]+` is a character class: it excludes the characters `&`, `g`, `t` and `;`, not the sequence `&gt;` | the code `<strong>` escapes to `&lt;strong&gt;`; the run stops at the `t` and no `&gt;` follows, so the tag gets no colour (likewise `<table>`, `<style>`, `<input type="text">`) | a tag is `&lt;`, any content up to the first `&gt;`, and that `&gt;` | high, not executed | Highlighter.TagAsWrittenMissesNamesWithGT | Highlighter.TagWrapsEveryTag |
