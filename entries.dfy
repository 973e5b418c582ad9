/** The shape of one journal entry: the sequence number in decimal, a colon, a
    space, then the text as given. */
module Entries {
  import opened Decimal

  /** An entry taken apart: its sequence number and its text. */
  datatype Numbered = Numbered(seqNo: nat, text: string)

  /** The line `add_entry` stores for sequence number `n` and text `text`.
      Whatever the text holds, the entry takes apart into exactly that number
      and that text. */
  function FormatEntry(n: nat, text: string): (e: string)
    ensures ParseEntry(e) == Some(Numbered(n, text))
  {
    var d := NatToDecimal(n);
    var e := d + ": " + text;
    assert LeadingDigits(e) == |d| by {
      assert !IsDigit(e[|d|]);
      assert forall i :: 0 <= i < |d| ==> e[i] == d[i];
    }
    assert e[..|d|] == d && e[|d|..|d| + 2] == ": " && e[|d| + 2..] == text;
    ParsePrinted(n);
    e
  }

  /** Number of digits at the front of `s`. */
  function LeadingDigits(s: string): (k: nat)
    ensures k <= |s| && AllDigits(s[..k])
    ensures k < |s| ==> !IsDigit(s[k])
  {
    if s == [] || !IsDigit(s[0]) then 0
    else
      var k := 1 + LeadingDigits(s[1..]);
      assert s[..k] == [s[0]] + s[1..][..k - 1];
      k
  }

  /** Takes an entry apart; anything that is not a canonical number followed by
      ": " is refused. */
  function ParseEntry(e: string): Option<Numbered>
  {
    var k := LeadingDigits(e);
    if k + 2 <= |e| && e[k..k + 2] == ": " && IsCanonical(e[..k])
    then Some(Numbered(DigitsValue(e[..k]), e[k + 2..]))
    else None
  }

  /** Whatever `ParseEntry` accepts is exactly an entry `add_entry` could store. */
  lemma FormatParsed(e: string)
    requires ParseEntry(e).Some?
    ensures FormatEntry(ParseEntry(e).value.seqNo, ParseEntry(e).value.text) == e
  {
    var k := LeadingDigits(e);
    PrintParsed(e[..k]);
    assert e == e[..k] + e[k..k + 2] + e[k + 2..];
  }

  /** Entries with different sequence numbers differ whatever their texts, and
      equal entries come from equal numbers and texts. */
  lemma FormatEntryInjective(n: nat, text: string, m: nat, text': string)
    requires FormatEntry(n, text) == FormatEntry(m, text')
    ensures n == m && text == text'
  {
  }
}
