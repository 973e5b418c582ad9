# Journal with a shared entry counter, in Dafny

This project models the `Journal` of the Single Responsibility Principle example
(`Single_Responsability_Principle/srp.cpp`) and proves properties of the model.

- A `Journal` has a `title` and an append-only list of `entries`.
- `add_entry` numbers each entry from a function-local `static int count`. That counter
  starts at 1, is shared by every journal in the process, and is post-incremented on
  every call. The number is turned into decimal text with `boost::lexical_cast`, and
  `"<n>: <text>"` is appended.
- `Journal::save` and `PersistenceManeger::save` both write every entry, in order,
  each followed by a line break.

Files and modules:

- `decimal.dfy`, module `Decimal`: `NatToDecimal` stands in for `lexical_cast` on the
  counter's values. Its partner is the parser `ParseDecimal`, and the two round trips
  are proved.
- `entries.dfy`, module `Entries`: `FormatEntry` gives the exact shape of a stored entry.
  Its partner is `ParseEntry`, and the round trips in both directions are proved. So
  different numbers always give different entries.
- `content.dfy`, module `Content`: `Render` is the text both `save` functions produce.
  Its partner is `SplitLines`, which reads such text back line by line.
- `journal.dfy`, module `Journals`: the classes `Counter` (the `static` counter),
  `Journal` and `PersistenceManager` (the source's `PersistenceManeger`). It also holds
  client methods. `FirstTwoEntries` and `DiaryScenario` replay the program's `main`.
  `SharedCounterScenario` adds entries to two journals that share one counter.

The `static` counter is a `Counter` object that is passed to every `AddEntry` call.
A process has one such object, so passing the same one to every call is what "shared by
every journal" means here. Its ghost field `issued` records the numbers handed out,
in call order. `Counter.Valid()` states that these numbers are exactly 1, 2, 3, ….
Each `Journal` also keeps a ghost list `numbers` with the sequence number of each
entry. Each `Save` returns the text the program writes to the file.

## Model

| member | source | states |
|---|---|---|
| `Decimal.NatToDecimal` | Single_Responsability_Principle/srp.cpp:24 | the decimal text of the counter is non-empty, all digits, and starts with '0' only for zero (no sign, no leading zero) |
| `Decimal.ParsePrinted` | Single_Responsability_Principle/srp.cpp:24 | reading the decimal text back gives the number it was made from |
| `Decimal.PrintParsed` | Single_Responsability_Principle/srp.cpp:24 | every canonical decimal string is the printed form of its value, so the printed form is exactly the canonical strings |
| `Decimal.NatToDecimalInjective` | Single_Responsability_Principle/srp.cpp:24 | different counter values give different decimal prefixes |
| `Entries.FormatEntry` | Single_Responsability_Principle/srp.cpp:24 | the stored entry is the decimal number, then ": ", then the text as given; for any text, including the empty one and one that holds ": ", taking it apart with `ParseEntry` gives back exactly that number and text |
| `Entries.FormatParsed` | Single_Responsability_Principle/srp.cpp:24 | every string that takes apart as "<canonical number>: <text>" is exactly the entry `add_entry` would store for that number and text |
| `Entries.FormatEntryInjective` | Single_Responsability_Principle/srp.cpp:24 | two entries are equal only if their numbers and texts are equal |
| `Journals.IssueKeepsApart` | Single_Responsability_Principle/srp.cpp:23-24 | when two journals draw on one counter, giving its next number to either of them keeps each journal's numbers strictly increasing, keeps them all below the counter, and keeps the two journals from sharing a number |
| `Journals.Counter.constructor` | Single_Responsability_Principle/srp.cpp:23 | the counter starts at 1 with nothing handed out |
| `Journals.Counter.PostIncrement` | Single_Responsability_Principle/srp.cpp:24 | `count++` returns the old value, adds exactly 1, and appends the returned value to the numbers handed out, which stay 1, 2, 3, … in call order |
| `Journals.Journal.constructor` | Single_Responsability_Principle/srp.cpp:20 | a new journal has the given title and no entries |
| `Journals.Journal.AddEntry` | Single_Responsability_Principle/srp.cpp:22-25 | the new entry list is the old one plus one entry at the end, "<old counter>: <text>"; the journal's numbers gain the old counter value at the end; the counter goes up by exactly 1; the title and all other journals are unchanged |
| `Journals.Journal.Save` | Single_Responsability_Principle/srp.cpp:32-37 | the loop writes exactly `Render(entries)`: each entry in order, each followed by "\n" |
| `Journals.PersistenceManager.Save` | Single_Responsability_Principle/srp.cpp:46-52 | the separate writer's loop also writes exactly `Render(j.entries)`, so both writers produce the same content for the same journal |
| `Content.Render` | Single_Responsability_Principle/srp.cpp:34-36 | the written text is empty exactly when the journal has no entries |
| `Content.RenderConcat` | Single_Responsability_Principle/srp.cpp:34-36 | writing the entries of `a + b` gives the text of `a` followed by the text of `b`, so each entry's line does not depend on its neighbours |
| `Content.SplitRender` | Single_Responsability_Principle/srp.cpp:34-36 | if no entry holds a line break, reading the written text back line by line gives exactly the entries, in order, with no extra line |
| `Content.RenderSplit` | Single_Responsability_Principle/srp.cpp:34-36 | any text that is empty or ends in a line break is what the writers produce for its own lines, so the format loses nothing |
| `Journals.FirstTwoEntries` | Single_Responsability_Principle/srp.cpp:56-69 | the program's sequence with any title and any two texts x and y writes "1: x\n2: y\n", and both writers give that same text |
| `Journals.DiaryScenario` | Single_Responsability_Principle/srp.cpp:56-69 | the program's own run writes "1: I ate a bug\n2: I cried today\n", and `Journal::save` would write the same text |
| `Journals.SharedCounterScenario` | Single_Responsability_Principle/srp.cpp:22-25 | entries added to journal A, then B, then A again are numbered 1, 2 and 3; A holds "1: …" and "3: …", B holds "2: …", and their numbers go up and never overlap |

## Left out

- Opening and truncating the file, and writing through `std::ofstream`. This is file I/O. Each `Save` returns the text the program writes, and the `filename` parameter is dropped. The model assumes that the file opens and that every write succeeds. The program never checks either: if the open fails, every later write does nothing, so the file may be missing, left as it was, or only partly written.
- The flush that `std::endl` performs. It affects buffering only; the model writes "\n".
- `Journals.Counter.PostIncrement`: does not model `int` overflow past 2147483647. That overflow is undefined behaviour in C++, so the counter is a `nat`.
- `boost::lexical_cast` itself is not part of this model. `NatToDecimal` gives its result for the non-negative values the counter takes. Negative values never occur, because the counter starts at 1 and only increases.
- The process-wide `static` is not a Dafny global, because Dafny has none. One `Counter` object is passed to every `AddEntry` call instead. The model does not stop a caller from creating two counters.
- Entries.FormatEntryInjective: numbers never repeat across journals only when every `AddEntry` call gets the same `Counter`. This is proved for two journals, step by step, by `IssueKeepsApart` and `SharedCounterScenario`, but not for every caller of `AddEntry`.
- The journal's title is never written by either `save`. The model keeps the title and proves only that `AddEntry` does not change it.
