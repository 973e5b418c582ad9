/** The journal: a title and an append-only list of numbered entries, the
    process-wide counter that numbers them, and the two ways of writing a journal
    out (its own `Save` and the separate persistence manager's). */
module Journals {
  import opened Decimal
  import opened Entries
  import opened Content

  /** The counter `add_entry` keeps as a function-local `static int`: one per
      process, shared by every journal, starting at 1. Each call to `AddEntry`
      is handed this one object. */
  class Counter {
    /** The number the next entry gets. */
    var value: nat
    /** The numbers handed out so far, in call order. */
    ghost var issued: seq<nat>

    /** The numbers handed out are 1, 2, 3, ... in call order, and `value` is
        the one after the last. */
    ghost predicate Valid()
      reads this
    {
      value == |issued| + 1 &&
      forall k :: 0 <= k < |issued| ==> issued[k] == k + 1
    }

    /** The counter as the process starts: nothing handed out, next number 1. */
    constructor ()
      ensures Valid() && value == 1 && issued == []
    {
      value := 1;
      issued := [];
    }

    /** `count++`: hands out the current number and moves on by exactly one. */
    method PostIncrement() returns (n: nat)
      requires Valid()
      modifies this
      ensures Valid()
      ensures n == old(value) && value == old(value) + 1
      ensures issued == old(issued) + [n]
    {
      n := value;
      value := value + 1;
      issued := issued + [n];
    }
  }

  /** The numbers in `s` go strictly up. */
  predicate Increasing(s: seq<nat>) {
    forall i, j :: 0 <= i < j < |s| ==> s[i] < s[j]
  }

  predicate Below(s: seq<nat>, bound: nat) {
    forall i :: 0 <= i < |s| ==> s[i] < bound
  }

  predicate Disjoint(s: seq<nat>, t: seq<nat>) {
    forall i, j :: 0 <= i < |s| && 0 <= j < |t| ==> s[i] != t[j]
  }

  /** What one shared counter guarantees two journals: the numbers of `a` and
      of `b` each go strictly up, all lie below the counter's next number `next`,
      and no number is in both. */
  predicate Apart(a: seq<nat>, b: seq<nat>, next: nat) {
    Increasing(a) && Increasing(b) && Below(a, next) && Below(b, next) && Disjoint(a, b)
  }

  /** Handing the counter's next number to one journal keeps the two journals
      apart, whichever of them gets it. */
  lemma IssueKeepsApart(a: seq<nat>, b: seq<nat>, next: nat)
    requires Apart(a, b, next)
    ensures Apart(a + [next], b, next + 1) && Apart(b, a + [next], next + 1)
  {
  }

  class Journal {
    var title: string
    var entries: seq<string>
    /** The sequence number of each entry, in the same order. */
    ghost var numbers: seq<nat>

    /** Every entry is a numbered entry, and `numbers` lists their numbers. */
    ghost predicate Valid()
      reads this
    {
      |numbers| == |entries| &&
      forall k :: 0 <= k < |entries| ==>
        ParseEntry(entries[k]).Some? && ParseEntry(entries[k]).value.seqNo == numbers[k]
    }

    /** A journal with the given title and no entries. */
    constructor (title: string)
      ensures Valid() && this.title == title && entries == [] && numbers == []
    {
      this.title := title;
      entries := [];
      numbers := [];
    }

    /** `add_entry`: stores "<n>: <entry>" at the end, where n is the shared
        counter's number before the call; earlier entries, the title and every
        other journal stay as they were. */
    method AddEntry(count: Counter, entry: string)
      requires Valid() && count.Valid()
      modifies this`entries, this`numbers, count
      ensures Valid() && count.Valid()
      ensures numbers == old(numbers) + [old(count.value)]
      ensures count.value == old(count.value) + 1
      ensures count.issued == old(count.issued) + [old(count.value)]
      ensures entries == old(entries) + [FormatEntry(old(count.value), entry)]
      ensures title == old(title)
    {
      var n := count.PostIncrement();
      entries := entries + [FormatEntry(n, entry)];
      numbers := numbers + [n];
    }

    /** `Journal::save`: the text the program writes to the file, built entry by
        entry as the stream receives it. */
    method Save() returns (content: string)
      ensures content == Render(entries)
    {
      content := [];
      for i := 0 to |entries|
        invariant content == Render(entries[..i])
      {
        assert entries[..i + 1] == entries[..i] + [entries[i]];
        RenderSnoc(entries[..i], entries[i]);
        content := content + entries[i] + "\n";
      }
      assert entries[..|entries|] == entries;
    }
  }

  /** The stand-alone writer; it keeps no state of its own. */
  class PersistenceManager {
    /** `PersistenceManeger::save`: the text the program writes to the file,
        built entry by entry from the journal's entries. */
    static method Save(j: Journal) returns (content: string)
      ensures content == Render(j.entries)
    {
      content := [];
      for i := 0 to |j.entries|
        invariant content == Render(j.entries[..i])
      {
        assert j.entries[..i + 1] == j.entries[..i] + [j.entries[i]];
        RenderSnoc(j.entries[..i], j.entries[i]);
        content := content + j.entries[i] + "\n";
      }
      assert j.entries[..|j.entries|] == j.entries;
    }
  }

  /** The program's run with any two texts: a fresh process counter, one
      journal, two entries, then both writers. */
  method FirstTwoEntries(title: string, x: string, y: string)
    returns (saved: string, savedByJournal: string)
    ensures saved == "1: " + x + "\n2: " + y + "\n"
    ensures savedByJournal == saved
  {
    var count := new Counter();
    var journal := new Journal(title);
    journal.AddEntry(count, x);
    journal.AddEntry(count, y);
    assert journal.entries == [FormatEntry(1, x), FormatEntry(2, y)];
    FirstTwoContent(x, y);
    saved := PersistenceManager.Save(journal);
    savedByJournal := journal.Save();
  }

  /** The program's own run: the "Dear Diary" journal and its two entries. */
  method DiaryScenario() returns (saved: string, savedByJournal: string)
    ensures saved == "1: I ate a bug\n2: I cried today\n"
    ensures savedByJournal == saved
  {
    saved, savedByJournal := FirstTwoEntries("Dear Diary", "I ate a bug", "I cried today");
  }

  /** The text written for a journal holding the first two numbered entries. */
  lemma FirstTwoContent(x: string, y: string)
    ensures Render([FormatEntry(1, x), FormatEntry(2, y)]) == "1: " + x + "\n2: " + y + "\n"
  {
    assert FormatEntry(1, x) == "1: " + x by {
      assert NatToDecimal(1) == "1";
    }
    assert FormatEntry(2, y) == "2: " + y by {
      assert NatToDecimal(2) == "2";
    }
    RenderCons(FormatEntry(2, y), []);
    RenderCons(FormatEntry(1, x), [FormatEntry(2, y)]);
    assert [FormatEntry(1, x)] + [FormatEntry(2, y)] == [FormatEntry(1, x), FormatEntry(2, y)];
  }

  /** Two journals drawing on the one counter: entries added to A, then B, then A
      again are numbered 1, 2, 3 in that order, whichever journal gets them, and
      the two journals never share a number. */
  method SharedCounterScenario(x: string, y: string, z: string)
    returns (entriesA: seq<string>, entriesB: seq<string>, ghost numbersA: seq<nat>, ghost numbersB: seq<nat>)
    ensures entriesA == ["1: " + x, "3: " + z]
    ensures entriesB == ["2: " + y]
    ensures numbersA == [1, 3] && numbersB == [2]
    ensures Apart(numbersA, numbersB, 4)
  {
    var count := new Counter();
    var a := new Journal("A");
    var b := new Journal("B");
    assert Apart(a.numbers, b.numbers, count.value);
    IssueKeepsApart(a.numbers, b.numbers, count.value);
    a.AddEntry(count, x);
    IssueKeepsApart(b.numbers, a.numbers, count.value);
    b.AddEntry(count, y);
    IssueKeepsApart(a.numbers, b.numbers, count.value);
    a.AddEntry(count, z);
    assert a.entries == [FormatEntry(1, x), FormatEntry(3, z)];
    assert b.entries == [FormatEntry(2, y)];
    assert NatToDecimal(1) == "1" && NatToDecimal(2) == "2" && NatToDecimal(3) == "3";
    assert FormatEntry(1, x) == "1: " + x;
    assert FormatEntry(2, y) == "2: " + y;
    assert FormatEntry(3, z) == "3: " + z;
    entriesA, entriesB := a.entries, b.entries;
    numbersA, numbersB := a.numbers, b.numbers;
  }
}
