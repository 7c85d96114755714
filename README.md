# Transition feed parser

A Dafny model of the feed parser in `transition_tracker/main.py`.
Transition Tracker is a small desktop tool that shows the current Debian library transitions.
It downloads the transitions export as text and parses it with an ad-hoc, line-oriented parser, which turns the text into an ordered list of records.
Each record has a name and a list of package names.

The model has three modules:

- `PyStr` (`PyStr.dfy`) covers the Python `str` operations the parser relies on: `isspace`, `strip()`, `rstrip(":")`, `startswith` and `splitlines()`.
  - The whitespace and line-break sets are written out in full.
  - `StripUnique` determines `strip()`: any split into whitespace, a trimmed middle and whitespace strips to that middle. `RStripChar`'s contract determines `rstrip(":")`.
  - `SplitLinesSpec` determines `splitlines()` for every text: the lines it gives, each followed by `\n`, are the text with every break (`\r\n` as one) written as `\n` and a final `\n` added when the text is non-empty and does not end in a break. `SplitNormalized` and `SplitFinalBreak` are its two halves.
  - `SplitTerminated` and `TerminatedSplit` say that splitting lines and writing them back, each followed by `\n`, undo each other.
- `TransitionFeed` (`Feed.dfy`) holds the parser itself.
  - `ParseFeed` is the loop of `_fetch_transitions`. It uses two accumulators: `transitions`, and `current`, which is either the empty dict or an open record.
  - `ParseFeed` is proved equal to `ParseText`, the same pass written as a fold of `Step` over the classified lines.
  - `Grouped` describes the output independently. It is an optional nameless record for the package lines before the first header, then one record per header holding the package lines up to the next header.
  - The fold is proved equal to `Grouped`. The properties the parser promises are proved from there.
- `FeedRender` (`Render.dfy`) writes a list of records out as a feed: a header `name:`, then one `  - package` line per package. It proves that parsing such a feed gives the records back, both from the lines and from the text.

How the model represents the Python values:

- A record is `Transition(name: Option<string>, packages: seq<string>)`.
- The name is optional because the code can emit a dict that has no `"name"` key.
- The accumulator `current` is `Closed` (the empty dict, which is falsy) or `Open(record)`.

### Behaviour of the parser worth knowing

Four facts about the loop at `main.py:56-63`, all of which the model keeps:

- **Package lines before the first header are kept.** On the empty dict, `setdefault("packages", [])` creates a record with no `"name"` key, and the end-of-input flush (or the next header) emits it. This is covered by `OrphansKept`, `SpaceIndentedMarker` and `PackageLineAppends`.
- **Only a space indents a line.**
  - A line that starts with a tab is a header, and so is a `- x` line in column 0.
  - A line holding only a tab therefore opens a record named `"\t"`.
  - Empty lines and lines of spaces are ignored.
  - This is covered by `TabIndentedMarker` and `BlankLines`.
- **`rstrip(":")` removes every trailing colon.** For example, `"foo::"` gives `"foo"`. It removes nothing else, so `"foo: "` keeps its colon and space.
- **Header names can be empty.** `":::"` gives the empty name.

## Model

In the source column, `main.py` stands for `build/transition-tracker_0.1.0_all/usr/lib/python3/dist-packages/transition_tracker/main.py`.

| member | source | states |
|---|---|---|
| TransitionFeed.ParseFeed | build/transition-tracker_0.1.0_all/usr/lib/python3/dist-packages/transition_tracker/main.py:55-66 | the loop over `text.splitlines()` with the two accumulators returns exactly `ParseText(text)`, the fold of the loop body over the lines followed by the final flush |
| TransitionFeed.ParseIsGrouped | build/transition-tracker_0.1.0_all/usr/lib/python3/dist-packages/transition_tracker/main.py:55-66 | the output is the nameless record of the package lines before the first header (when there are any), then one record per header holding the payloads of the package lines up to the next header |
| TransitionFeed.RecordsFollowHeaders | build/transition-tracker_0.1.0_all/usr/lib/python3/dist-packages/transition_tracker/main.py:58-65 | the record names are the header names in input order, preceded by one nameless record exactly when a package line comes before the first header; the number of records is the number of headers, plus one in that case |
| TransitionFeed.PackagesPreserved | build/transition-tracker_0.1.0_all/usr/lib/python3/dist-packages/transition_tracker/main.py:62-63 | no package line is dropped or reordered: the packages of all records, concatenated in order, are the payloads of the package lines in input order |
| TransitionFeed.OrphansKept | build/transition-tracker_0.1.0_all/usr/lib/python3/dist-packages/transition_tracker/main.py:56-65 | package lines before the first header make the first record, nameless, holding their payloads; a record is nameless exactly when it is that first record |
| TransitionFeed.HeaderStartsRecord | build/transition-tracker_0.1.0_all/usr/lib/python3/dist-packages/transition_tracker/main.py:58-61 | a header closes whatever record is open, emitting it even with no packages, and starts a record named after it: the lines before it and the lines from it on parse independently, and the second part starts with the header's record |
| TransitionFeed.HeaderRecordFirst | build/transition-tracker_0.1.0_all/usr/lib/python3/dist-packages/transition_tracker/main.py:58-63 | after a header, the first record is the header's name with the payloads of the package lines up to the next header |
| TransitionFeed.IgnoredLine | build/transition-tracker_0.1.0_all/usr/lib/python3/dist-packages/transition_tracker/main.py:58-62 | a line that is neither a header nor a package line can be removed anywhere without changing the output |
| TransitionFeed.PackageLineAppends | build/transition-tracker_0.1.0_all/usr/lib/python3/dist-packages/transition_tracker/main.py:62-63 | a package line appended to the input appends its payload to the last record and leaves the others unchanged; when there is no record yet, it makes a nameless record of it |
| TransitionFeed.SingleSection | build/transition-tracker_0.1.0_all/usr/lib/python3/dist-packages/transition_tracker/main.py:58-65 | a header followed by lines without a header gives exactly one record: the header's name with the payloads of the package lines after it |
| TransitionFeed.LastRecordFlushed | build/transition-tracker_0.1.0_all/usr/lib/python3/dist-packages/transition_tracker/main.py:64-65 | the record open at the end of the input is emitted: the last record is that of the last header, with the package lines after it |
| TransitionFeed.RunKeepsEmitted | build/transition-tracker_0.1.0_all/usr/lib/python3/dist-packages/transition_tracker/main.py:59-60 | records already appended to `transitions` are never changed by later lines |
| TransitionFeed.RunKeepsClosedOnlyAtStart | build/transition-tracker_0.1.0_all/usr/lib/python3/dist-packages/transition_tracker/main.py:56-63 | `current` is the empty dict only while nothing has been emitted, and once a record is open it stays open: no line sets `current` back to the empty dict |
| TransitionFeed.Payload | build/transition-tracker_0.1.0_all/usr/lib/python3/dist-packages/transition_tracker/main.py:62-63 | the package of a package line is what follows `- ` in its stripped form; it is never empty and never ends in whitespace |
| TransitionFeed.IndentedPackage | build/transition-tracker_0.1.0_all/usr/lib/python3/dist-packages/transition_tracker/main.py:62-63 | a space-indented `- pkg` line with trailing whitespace is a package line naming exactly `pkg` |
| TransitionFeed.SpaceIndentedMarker | build/transition-tracker_0.1.0_all/usr/lib/python3/dist-packages/transition_tracker/main.py:56-65 | a lone space-indented `- pkg` line gives one nameless record holding `pkg` |
| TransitionFeed.TabIndentedMarker | build/transition-tracker_0.1.0_all/usr/lib/python3/dist-packages/transition_tracker/main.py:58-61 | a tab-indented `- pkg` line, and a `- pkg` line in column 0, are headers: each is a record named by the whole line with no packages |
| TransitionFeed.LoneHeader | build/transition-tracker_0.1.0_all/usr/lib/python3/dist-packages/transition_tracker/main.py:58-61 | a header without a trailing colon on its own is one record named by the whole line, with no packages |
| TransitionFeed.IgnoredBlank | build/transition-tracker_0.1.0_all/usr/lib/python3/dist-packages/transition_tracker/main.py:58-62 | an empty line, or one that starts with a space and holds only whitespace, gives no record |
| TransitionFeed.BlankLines | build/transition-tracker_0.1.0_all/usr/lib/python3/dist-packages/transition_tracker/main.py:58-62 | a line holding only a tab is a record named by the tab; a line of spaces and an empty line give nothing |
| TransitionFeed.TwoTransitionFeed | build/transition-tracker_0.1.0_all/usr/lib/python3/dist-packages/transition_tracker/main.py:55-66 | `n1:` with two package lines, then `n2` with one, gives the records `n1` with both packages in order and `n2` with its one package |
| TransitionFeed.NameWithColon | build/transition-tracker_0.1.0_all/usr/lib/python3/dist-packages/transition_tracker/main.py:61 | one trailing colon after a name that does not end in a colon is removed |
| TransitionFeed.HeaderNameExamples | build/transition-tracker_0.1.0_all/usr/lib/python3/dist-packages/transition_tracker/main.py:61 | `foo::` names `foo`, `:::` names the empty string, `foo` names `foo`, `foo: ` names `foo: ` |
| TransitionFeed.ParseTextOfLines | build/transition-tracker_0.1.0_all/usr/lib/python3/dist-packages/transition_tracker/main.py:57 | the text made of lines without line breaks, each ended by `\n`, parses to the records of those lines |
| FeedRender.RoundTrip | build/transition-tracker_0.1.0_all/usr/lib/python3/dist-packages/transition_tracker/main.py:55-66 | named records written as `name:` headers, each followed by its `  - package` lines, parse back to exactly those records, with names, packages and order unchanged |
| FeedRender.TextRoundTrip | build/transition-tracker_0.1.0_all/usr/lib/python3/dist-packages/transition_tracker/main.py:55-66 | the same round trip through the text of the feed: the rendered lines, each followed by `\n`, split by `splitlines()` and parsed, give back exactly the records |
| FeedRender.SectionRoundTrip | build/transition-tracker_0.1.0_all/usr/lib/python3/dist-packages/transition_tracker/main.py:58-65 | one named record written out parses back to that record |
| FeedRender.PackageLinesPayloads | build/transition-tracker_0.1.0_all/usr/lib/python3/dist-packages/transition_tracker/main.py:62-63 | `  - package` lines give back their packages in order |
| PyStr.Strip | build/transition-tracker_0.1.0_all/usr/lib/python3/dist-packages/transition_tracker/main.py:62 | `str.strip()` gives a string that is empty or neither starts nor ends with whitespace |
| PyStr.StripIsInfix | build/transition-tracker_0.1.0_all/usr/lib/python3/dist-packages/transition_tracker/main.py:62 | what `strip()` keeps is a piece of the string with only whitespace before and after it |
| PyStr.StripUnique | build/transition-tracker_0.1.0_all/usr/lib/python3/dist-packages/transition_tracker/main.py:62 | for any split of a string into whitespace, a middle with no whitespace at its ends, and whitespace, `strip()` gives that middle |
| PyStr.RStripChar | build/transition-tracker_0.1.0_all/usr/lib/python3/dist-packages/transition_tracker/main.py:61 | `rstrip(":")` gives a prefix that does not end in `:`, and everything it removed is `:` |
| PyStr.SplitLines | build/transition-tracker_0.1.0_all/usr/lib/python3/dist-packages/transition_tracker/main.py:57 | `splitlines()` gives lines holding no line break, and gives no lines exactly for the empty text |
| PyStr.SplitTerminated | build/transition-tracker_0.1.0_all/usr/lib/python3/dist-packages/transition_tracker/main.py:57 | splitting lines that hold no line break, each ended by `\n`, gives those lines back, without an empty last line |
| PyStr.TerminatedSplit | build/transition-tracker_0.1.0_all/usr/lib/python3/dist-packages/transition_tracker/main.py:57 | a text whose only line breaks are `\n`, empty or ending in one, is exactly its split lines each followed by `\n` |
| PyStr.SplitLinesSpec | build/transition-tracker_0.1.0_all/usr/lib/python3/dist-packages/transition_tracker/main.py:57 | for every text, the lines `splitlines()` gives, each followed by `\n`, are the text with every line break (`\r\n` counted once) written as `\n` and a final `\n` added when the text is non-empty and does not end in a break; with `SplitTerminated` this determines the lines |
| PyStr.SplitNormalized | build/transition-tracker_0.1.0_all/usr/lib/python3/dist-packages/transition_tracker/main.py:57 | `splitlines()` gives the same lines whichever break characters the text uses, `\r\n` counting as one break |
| PyStr.SplitFinalBreak | build/transition-tracker_0.1.0_all/usr/lib/python3/dist-packages/transition_tracker/main.py:57 | a final line break does not start an empty last line: a non-empty text not ending in a break splits like the same text followed by `\n` |
| TransitionFeed.ParseTextBreaks | build/transition-tracker_0.1.0_all/usr/lib/python3/dist-packages/transition_tracker/main.py:57 | the records do not depend on which line breaks the feed uses nor on whether it ends with one |

The translation of the loop body lives in functions that the members above speak about: `TransitionFeed.IsHeader` is the header test at `main.py:58`, `TransitionFeed.HeaderName` the `rstrip(":")` of `main.py:61`, `TransitionFeed.IsPackageLine` and `TransitionFeed.Payload` the test and the slice at `main.py:62-63`, `TransitionFeed.Classify` the choice between those two branches, `TransitionFeed.AddPackage` the `setdefault(...).append` at `main.py:63`, `TransitionFeed.Step` one pass of the loop body at `main.py:58-63`, `TransitionFeed.Flush` the final flush at `main.py:64-65`, and `TransitionFeed.Parse` and `TransitionFeed.ParseText` the whole loop over lines and over text (`main.py:57-66`).

## Left out

- The network fetch at `main.py:49-53`: `urlopen`, the 15-second timeout, reading the body and `.decode()`. This is I/O against a foreign library. `ParseFeed` takes the decoded text as its input.
- The bare `except: return []` at `main.py:67-68`. It catches only failures of the fetch and the decode. The parse over a `str` cannot raise, so the model has no error path.
- Settings loading and saving (`main.py:26-43`) and the first-run flag update (`main.py:171-174`). Both are file I/O.
- The worker thread and the `GLib.idle_add` hand-off (`main.py:177-183`). They only move the call off the UI thread.
- The GTK/Adwaita user interface (`main.py:72-292`). This includes the `"Unknown"` fallback for a record without a name and the 20-row display cap.
- The gettext and locale setup (`main.py:17-23`). It is environment configuration.
- Identity of the Python dicts. `current` is appended to `transitions` and then immediately rebound to a new dict, or the loop ends. So no dict is changed after it has been emitted, and the model treats records as values.
- `splitlines()` treats strings as sequences of code points. Characters are Dafny `char`s, and no Unicode normalisation is involved.
