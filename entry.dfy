/** The reading parser inside `handle_entry` (bot.py:41-45): the text is
    split on whitespace, the first word is split on `/` into systolic and
    diastolic pressure, and the second word, when there is one, is the
    pulse (0 otherwise). Every `IndexError` and `ValueError` on the way is
    the `None` result, which the handler's bare `except` turns into the
    error reply. */
module Entry {
  import opened PyText

  datatype Reading = Reading(systolic: int, diastolic: int, pulse: int)

  /** A successful parse needs a `/` somewhere in the text: without one the
      first word splits into a single piece and `pressure[1]` raises. */
  function ParseEntry(text: string): (r: Option<Reading>)
    ensures r.Some? ==> '/' in text
  {
    var parts := Split(text);
    if |parts| == 0 then None                               // parts[0] raises
    else
      var pressure := SplitOn(parts[0], '/');
      var systolic := ParseInt(pressure[0]);
      if systolic.None? || |pressure| < 2 then None         // int() or pressure[1] raises
      else
        SlashInFirstWord(text);
        var diastolic := ParseInt(pressure[1]);
        var pulse := if |parts| > 1 then ParseInt(parts[1]) else Some(0);
        if diastolic.None? || pulse.None? then None
        else Some(Reading(systolic.value, diastolic.value, pulse.value))
  }

  /** The text the prompt asks for: "S/D P". */
  function EntryText(r: Reading): string {
    IntToString(r.systolic) + "/" + IntToString(r.diastolic) + " " + IntToString(r.pulse)
  }

  /** The short form "S/D". */
  function PressureText(systolic: int, diastolic: int): string {
    IntToString(systolic) + "/" + IntToString(diastolic)
  }

  /** A first word that splits into two or more `/`-pieces holds a `/`,
      and so does the text. */
  lemma SlashInFirstWord(text: string)
    requires Split(text) != [] && |SplitOn(Split(text)[0], '/')| >= 2
    ensures '/' in text
  {
    var word := Split(text)[0];
    assert '/' in word;
    var i :| 0 <= i < |word| && word[i] == '/';
    SplitCharFromText(text, 0, i);
  }

  /** An empty or blank text, or a first word without `/`, never parses. */
  lemma ParseFailsWithoutPressure(text: string)
    ensures Split(text) == [] ==> ParseEntry(text) == None
    ensures Split(text) != [] && '/' !in Split(text)[0] ==> ParseEntry(text) == None
  {
  }

  /** A piece that is used but is not an integer -- the systolic or
      diastolic piece of the first word, or the pulse word when there is
      one -- makes `int()` raise, so the text does not parse. */
  lemma ParseFailsOnBadNumber(text: string)
    ensures Split(text) != [] && ParseInt(SplitOn(Split(text)[0], '/')[0]) == None
            ==> ParseEntry(text) == None
    ensures Split(text) != [] && |SplitOn(Split(text)[0], '/')| >= 2
            && ParseInt(SplitOn(Split(text)[0], '/')[1]) == None
            ==> ParseEntry(text) == None
    ensures |Split(text)| > 1 && ParseInt(Split(text)[1]) == None ==> ParseEntry(text) == None
  {
  }

  lemma SplitOnHead(a: string, b: string, sep: char)
    requires sep !in a
    requires b == [] || b[0] == sep
    ensures SplitOn(a + b, sep)[0] == a
  {
    if b == [] {
      assert a + b == a;
      SplitOnWhole(a, sep);
    } else {
      assert a + b == a + [sep] + b[1..];
      SplitOnAt(a, b[1..], sep);
    }
  }

  /** The first word "S/D" followed by nothing or by further `/`-pieces
      splits into S and D first. */
  lemma PressureWord(s: int, d: int, extra: string)
    requires extra == [] || extra[0] == '/'
    ensures var pressure := SplitOn(IntToString(s) + "/" + IntToString(d) + extra, '/');
            |pressure| >= 2 && pressure[0] == IntToString(s) && pressure[1] == IntToString(d)
  {
    var ss, ds := IntToString(s), IntToString(d);
    IntToStringNoSpace(s);
    IntToStringNoSpace(d);
    assert ss + "/" + ds + extra == ss + ['/'] + (ds + extra);
    SplitOnAt(ss, ds + extra, '/');
    SplitOnHead(ds, extra, '/');
  }

  lemma NoSpaceConcat(a: string, b: string)
    requires NoSpace(a) && NoSpace(b)
    ensures NoSpace(a + b)
  {
    forall i | 0 <= i < |a + b| ensures !IsSpace((a + b)[i]) {
      if i >= |a| { assert (a + b)[i] == b[i - |a|]; }
    }
  }

  lemma SpaceJoin(a: string, b: string, c: string)
    ensures a + " " + b + c == a + ([' '] + (b + c))
  {
  }

  /** Two words separated by one space, then whitespace or the end: those
      two words come first out of `split()`. */
  lemma SplitTwoWords(w0: string, w1: string, rest: string)
    requires w0 != [] && NoSpace(w0) && w1 != [] && NoSpace(w1)
    requires rest == [] || IsSpace(rest[0])
    ensures var parts := Split(w0 + " " + w1 + rest);
            |parts| >= 2 && parts[0] == w0 && parts[1] == w1
  {
    var tail := [' '] + (w1 + rest);
    SpaceJoin(w0, w1, rest);
    SplitWord(w0, tail);
    SplitSkipsSpace(' ', w1 + rest);
    SplitWord(w1, rest);
    assert Split(w0 + tail) == [w0] + ([w1] + Split(rest));
  }

  /** The first word "S/D..." contains no whitespace. */
  lemma PressureWordNoSpace(s: int, d: int, extra: string)
    requires NoSpace(extra)
    ensures NoSpace(IntToString(s) + "/" + IntToString(d) + extra)
  {
    IntToStringNoSpace(s);
    IntToStringNoSpace(d);
    NoSpaceConcat(IntToString(s), "/");
    NoSpaceConcat(IntToString(s) + "/", IntToString(d));
    NoSpaceConcat(IntToString(s) + "/" + IntToString(d), extra);
  }

  /** Words after the second, and `/`-pieces after the second, are ignored:
      "S/D/x... P ..." parses as (S, D, P) whatever further pieces the first
      word has and whatever text follows the pulse. */
  lemma ParseIgnoresExtra(r: Reading, extra: string, rest: string)
    requires extra == [] || extra[0] == '/'
    requires NoSpace(extra)
    requires rest == [] || IsSpace(rest[0])
    ensures ParseEntry(IntToString(r.systolic) + "/" + IntToString(r.diastolic) + extra
                       + " " + IntToString(r.pulse) + rest)
            == Some(r)
  {
    var word := IntToString(r.systolic) + "/" + IntToString(r.diastolic) + extra;
    PressureWordNoSpace(r.systolic, r.diastolic, extra);
    IntToStringNoSpace(r.pulse);
    SplitTwoWords(word, IntToString(r.pulse), rest);
    PressureWord(r.systolic, r.diastolic, extra);
    ParseIntRoundTrip(r.systolic);
    ParseIntRoundTrip(r.diastolic);
    ParseIntRoundTrip(r.pulse);
  }

  /** Without a pulse word, further `/`-pieces of the first word are ignored
      too: "S/D/x..." parses as (S, D, 0). */
  lemma ParseIgnoresExtraNoPulse(s: int, d: int, extra: string)
    requires extra == [] || extra[0] == '/'
    requires NoSpace(extra)
    ensures ParseEntry(IntToString(s) + "/" + IntToString(d) + extra) == Some(Reading(s, d, 0))
  {
    var word := IntToString(s) + "/" + IntToString(d) + extra;
    PressureWordNoSpace(s, d, extra);
    IntToStringNoSpace(s);
    assert word + [] == word;
    SplitWord(word, []);
    PressureWord(s, d, extra);
    ParseIntRoundTrip(s);
    ParseIntRoundTrip(d);
  }

  /** "S/D P" parses back to (S, D, P). */
  lemma ParseRoundTrip(r: Reading)
    ensures ParseEntry(EntryText(r)) == Some(r)
  {
    DropEmpty(IntToString(r.systolic), IntToString(r.diastolic), IntToString(r.pulse));
    ParseIgnoresExtra(r, [], []);
  }

  lemma DropEmpty(a: string, b: string, c: string)
    ensures a + "/" + b + [] + " " + c + [] == a + "/" + b + " " + c
  {
  }

  /** "S/D" parses to (S, D, 0): a missing pulse defaults to 0. */
  lemma ParseDefaultPulse(systolic: int, diastolic: int)
    ensures ParseEntry(PressureText(systolic, diastolic)) == Some(Reading(systolic, diastolic, 0))
  {
    var word := PressureText(systolic, diastolic);
    PressureWordNoSpace(systolic, diastolic, []);
    assert IntToString(systolic) + "/" + IntToString(diastolic) + [] == word;
    SplitWord(word, []);
    assert word + [] == word;
    assert Split(word) == [word];
    PressureWord(systolic, diastolic, []);
    ParseIntRoundTrip(systolic);
    ParseIntRoundTrip(diastolic);
  }

  lemma ExampleNumbers()
    ensures IntToString(120) == "120" && IntToString(80) == "80" && IntToString(72) == "72"
  {
    assert NatToString(12) == "12";
    assert NatToString(8) == "8";
    assert NatToString(7) == "7";
  }

  /** "120/80 72" is saved as systolic 120, diastolic 80, pulse 72. */
  lemma ExampleFull()
    ensures ParseEntry("120/80 72") == Some(Reading(120, 80, 72))
  {
    var r := Reading(120, 80, 72);
    ParseRoundTrip(r);
    ExampleNumbers();
    assert IntToString(r.systolic) + "/" + IntToString(r.diastolic) + " " + IntToString(r.pulse)
           == "120/80 72";
  }

  /** "120/80" gets pulse 0. */
  lemma ExampleNoPulse()
    ensures ParseEntry("120/80") == Some(Reading(120, 80, 0))
  {
    ParseDefaultPulse(120, 80);
    ExamplePressureText();
  }

  lemma ExamplePressureText()
    ensures PressureText(120, 80) == "120/80"
  {
    ExampleNumbers();
  }

  /** "120/80/5 72 x": the third pressure piece and the third word are ignored. */
  lemma ExampleExtra()
    ensures ParseEntry("120/80/5 72 x") == Some(Reading(120, 80, 72))
  {
    ExampleNumbers();
    assert "120" + "/" + "80" + "/5" + " " + "72" + " x" == "120/80/5 72 x";
    ParseIgnoresExtra(Reading(120, 80, 72), "/5", " x");
  }
}
