/** What a journal's entries look like once written out: each entry in order,
    each followed by a line break, and the reading of such text back into lines. */
module Content {

  predicate NoLineBreak(s: string) {
    forall i :: 0 <= i < |s| ==> s[i] != '\n'
  }

  /** The text written for `entries`: every entry followed by "\n", in order. */
  function Render(entries: seq<string>): (r: string)
    ensures r == [] <==> entries == []
  {
    if entries == [] then [] else entries[0] + "\n" + Render(entries[1..])
  }

  /** Position of the first line break in `s`, or |s| when there is none. */
  function LineEnd(s: string): (i: nat)
    ensures i <= |s| && NoLineBreak(s[..i])
    ensures i < |s| ==> s[i] == '\n'
  {
    if s == [] || s[0] == '\n' then 0
    else
      var i := 1 + LineEnd(s[1..]);
      assert s[..i] == [s[0]] + s[1..][..i - 1];
      i
  }

  /** Cuts text into lines at its line breaks, as reading a file line by line does;
      a last line without a line break still counts as a line. */
  function SplitLines(s: string): (lines: seq<string>)
    ensures forall k :: 0 <= k < |lines| ==> NoLineBreak(lines[k])
    decreases |s|
  {
    if s == [] then []
    else
      var i := LineEnd(s);
      if i == |s| then [s] else [s[..i]] + SplitLines(s[i + 1..])
  }

  /** Writing `a` then `b` gives the text of `a` followed by the text of `b`. */
  lemma {:induction false} RenderConcat(a: seq<string>, b: seq<string>)
    ensures Render(a + b) == Render(a) + Render(b)
    decreases |a|
  {
    if a != [] {
      assert (a + b)[1..] == a[1..] + b;
      RenderConcat(a[1..], b);
    } else {
      assert a + b == b;
    }
  }

  /** Writing one more entry in front puts that entry and a line break in front. */
  lemma RenderCons(e: string, entries: seq<string>)
    ensures Render([e] + entries) == e + "\n" + Render(entries)
  {
    assert ([e] + entries)[1..] == entries;
  }

  /** Appending one entry appends that entry and a line break to the text. */
  lemma RenderSnoc(entries: seq<string>, e: string)
    ensures Render(entries + [e]) == Render(entries) + e + "\n"
  {
    RenderConcat(entries, [e]);
    assert [e][1..] == [];
  }

  /** The first line of `e + "\n" + rest` is `e` when `e` holds no line break. */
  lemma LineEndAfter(e: string, rest: string)
    requires NoLineBreak(e)
    ensures LineEnd(e + "\n" + rest) == |e|
  {
    var s := e + "\n" + rest;
    assert s[|e|] == '\n';
    assert forall i :: 0 <= i < |e| ==> s[i] == e[i];
  }

  /** Reading back what was written gives exactly the entries, in order, when no
      entry holds a line break. */
  lemma {:induction false} SplitRender(entries: seq<string>)
    requires forall k :: 0 <= k < |entries| ==> NoLineBreak(entries[k])
    ensures SplitLines(Render(entries)) == entries
    decreases |entries|
  {
    if entries != [] {
      var e, rest := entries[0], Render(entries[1..]);
      var s := e + "\n" + rest;
      LineEndAfter(e, rest);
      assert s[..|e|] == e && s[|e| + 1..] == rest;
      SplitRender(entries[1..]);
    }
  }

  /** Any text that is empty or ends in a line break is what writing its own lines
      produces. */
  lemma {:induction false} RenderSplit(s: string)
    requires s == [] || s[|s| - 1] == '\n'
    ensures Render(SplitLines(s)) == s
    decreases |s|
  {
    if s != [] {
      var i := LineEnd(s);
      assert i < |s| by {
        assert s[..|s|][|s| - 1] == '\n';
      }
      var line, rest := s[..i], s[i + 1..];
      assert rest == [] || rest[|rest| - 1] == '\n' by {
        if rest != [] {
          assert rest[|rest| - 1] == s[|s| - 1];
        }
      }
      calc {
        Render(SplitLines(s));
        Render([line] + SplitLines(rest));
        { RenderCons(line, SplitLines(rest)); }
        line + "\n" + Render(SplitLines(rest));
        { RenderSplit(rest); }
        line + "\n" + rest;
        { assert s[i] == '\n'; }
        s;
      }
    }
  }
}
