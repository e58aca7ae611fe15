/** Message routing in bot.py (bot.py:30-53). The dispatcher tries the
    message handlers in the order they are registered and runs the first
    one whose filter accepts the text; when none accepts, the message gets
    no reply. The four filters are: the `/start` command, the exact label
    of the "new entry" button, the entry filter of `handle_entry` (no `/`
    in the text, and the text with its spaces removed is not all digits),
    and the exact label of the "show diary" button. */
module Router {
  import opened PyText
  import opened Entry

  /** The message handlers, named after the functions that bot.py registers. */
  datatype Handler = StartHandler | NewEntryHandler | EntryHandler | DiaryHandler

  const NewEntryLabel: string := "📥 Сделать запись"
  const PastDateLabel: string := "🗓 Запись за прошедшую дату"
  const DiaryLabel: string := "📃 Посмотреть дневник"

  /** Registration order, which is priority order. */
  const Registered: seq<Handler> := [StartHandler, NewEntryHandler, EntryHandler, DiaryHandler]

  /** `s.partition(c)` without the separator: the text before the first `c`
      and the text after it (empty when there is no `c`). */
  function Partition(s: string, c: char): (r: (string, string))
    ensures c !in r.0
    ensures c in s ==> s == r.0 + [c] + r.1
    ensures c !in s ==> r.0 == s && r.1 == []
  {
    if s == [] then ([], [])
    else if s[0] == c then ([], s[1..])
    else
      var (head, tail) := Partition(s[1..], c);
      ([s[0]] + head, tail)
  }

  /** The command filter of `commands=['start']`: the first word of the
      text is `/` followed by a command and an optional `@mention`; the
      mention, when present, must name this bot, and the command must be
      `start`, both compared case-insensitively. `botName` is the bot's own
      username, which the library asks the server for. A command always
      holds a `/`. */
  predicate IsStartCommand(text: string, botName: string)
    ensures IsStartCommand(text, botName) ==> '/' in text
  {
    var words := Split(text);
    if words == [] then false
    else
      SplitCharFromText(text, 0, 0);
      && words[0][0] == '/'
      && var (command, mention) := Partition(words[0][1..], '@');
         && (mention == [] || Lower(mention) == Lower(botName))
         && Lower(command) == "start"
  }

  /** The filter of `handle_entry` (bot.py:38). It lets through only texts
      without `/`, which the parser cannot read: whatever passes it fails to
      parse. */
  predicate EntryFilter(text: string)
    ensures EntryFilter(text) ==> ParseEntry(text) == None
  {
    '/' !in text && !IsDigitString(RemoveSpaces(text))
  }

  predicate Accepts(h: Handler, text: string, botName: string) {
    match h
    case StartHandler => IsStartCommand(text, botName)
    case NewEntryHandler => text == NewEntryLabel
    case EntryHandler => EntryFilter(text)
    case DiaryHandler => text == DiaryLabel
  }

  /** The first handler of `hs` that accepts the text, if any: a handler of
      `hs` that accepts it, or `None` when no handler of `hs` does. */
  function FirstMatch(hs: seq<Handler>, text: string, botName: string): (r: Option<Handler>)
    ensures r.Some? ==> r.value in hs && Accepts(r.value, text, botName)
    ensures r.None? ==> forall i :: 0 <= i < |hs| ==> !Accepts(hs[i], text, botName)
  {
    if hs == [] then None
    else if Accepts(hs[0], text, botName) then Some(hs[0])
    else FirstMatch(hs[1..], text, botName)
  }

  /** The handler the dispatcher runs for a text message, or `None` when
      the message is left unanswered. */
  function Route(text: string, botName: string): (r: Option<Handler>)
    ensures r.Some? ==> Accepts(r.value, text, botName)
    ensures r.None? ==> forall h :: h in Registered ==> !Accepts(h, text, botName)
  {
    FirstMatch(Registered, text, botName)
  }

  /** Handler `i` is the first in `hs` to accept the text. */
  predicate FirstAccepting(hs: seq<Handler>, i: int, text: string, botName: string) {
    && 0 <= i < |hs|
    && Accepts(hs[i], text, botName)
    && forall j :: 0 <= j < i ==> !Accepts(hs[j], text, botName)
  }

  /** First match wins: the chosen handler accepts the text and no handler
      before it does; `None` exactly when no handler accepts. */
  lemma {:induction false} FirstMatchSpec(hs: seq<Handler>, text: string, botName: string)
    ensures FirstMatch(hs, text, botName) == None <==> forall i :: 0 <= i < |hs| ==> !Accepts(hs[i], text, botName)
    ensures forall i :: FirstAccepting(hs, i, text, botName) ==> FirstMatch(hs, text, botName) == Some(hs[i])
    ensures FirstMatch(hs, text, botName).Some? ==>
              exists i :: FirstAccepting(hs, i, text, botName) && hs[i] == FirstMatch(hs, text, botName).value
  {
    if hs != [] {
      FirstMatchSpec(hs[1..], text, botName);
      if !Accepts(hs[0], text, botName) {
        forall i | FirstAccepting(hs, i, text, botName)
          ensures FirstMatch(hs, text, botName) == Some(hs[i])
        {
          assert i > 0;
          assert FirstAccepting(hs[1..], i - 1, text, botName);
        }
        if FirstMatch(hs, text, botName).Some? {
          var i :| FirstAccepting(hs[1..], i, text, botName) && hs[1..][i] == FirstMatch(hs, text, botName).value;
          assert FirstAccepting(hs, i + 1, text, botName);
        }
      } else {
        assert FirstAccepting(hs, 0, text, botName);
        forall i | FirstAccepting(hs, i, text, botName)
          ensures FirstMatch(hs, text, botName) == Some(hs[i])
        {
          assert i == 0;
        }
      }
    }
  }

  /** The router in registration order, spelled out. */
  lemma RouteCases(text: string, botName: string)
    ensures Route(text, botName) == Some(StartHandler) <==> IsStartCommand(text, botName)
    ensures Route(text, botName) == Some(NewEntryHandler) <==>
              !IsStartCommand(text, botName) && text == NewEntryLabel
    ensures Route(text, botName) == Some(EntryHandler) <==>
              !IsStartCommand(text, botName) && text != NewEntryLabel && EntryFilter(text)
    ensures Route(text, botName) == Some(DiaryHandler) <==>
              !IsStartCommand(text, botName) && text != NewEntryLabel && !EntryFilter(text) && text == DiaryLabel
    ensures Route(text, botName) == None <==>
              !IsStartCommand(text, botName) && text != NewEntryLabel && !EntryFilter(text) && text != DiaryLabel
  {
    FirstMatchSpec(Registered, text, botName);
    var a0, a1, a2, a3 := Accepts(StartHandler, text, botName), Accepts(NewEntryHandler, text, botName),
                          Accepts(EntryHandler, text, botName), Accepts(DiaryHandler, text, botName);
    if a0 { assert FirstAccepting(Registered, 0, text, botName); }
    else if a1 { assert FirstAccepting(Registered, 1, text, botName); }
    else if a2 { assert FirstAccepting(Registered, 2, text, botName); }
    else if a3 { assert FirstAccepting(Registered, 3, text, botName); }
    else { assert forall i :: 0 <= i < |Registered| ==> !Accepts(Registered[i], text, botName); }
  }

  /** Whatever reaches `handle_entry` fails to parse: the entry filter lets
      through only texts without `/`, and the parser needs one. So by text
      the bot never saves a reading; every such message gets the error reply. */
  lemma EntryRouteNeverParses(text: string, botName: string)
    ensures Route(text, botName) == Some(EntryHandler) ==> ParseEntry(text) == None
  {
    RouteCases(text, botName);
  }

  lemma LabelsHaveNoSlash()
    ensures '/' !in NewEntryLabel && '/' !in PastDateLabel && '/' !in DiaryLabel
  {
  }

  /** A text whose first character is neither a space nor a digit is not
      all digits once its spaces are removed. */
  lemma LeadingNonDigit(s: string)
    requires s != [] && s[0] != ' ' && !IsDigit(s[0])
    ensures !IsDigitString(RemoveSpaces(s))
  {
    assert RemoveSpaces(s)[0] == s[0];
  }

  lemma DiaryLabelPassesEntryFilter()
    ensures EntryFilter(DiaryLabel)
  {
    LabelsHaveNoSlash();
    LeadingNonDigit(DiaryLabel);
  }

  /** `show_diary` is shadowed: its label also passes the entry filter of
      `handle_entry`, which is registered before it, so no text reaches it. */
  lemma DiaryUnreachable(text: string, botName: string)
    ensures Route(text, botName) != Some(DiaryHandler)
  {
    RouteCases(text, botName);
    DiaryLabelPassesEntryFilter();
  }

  /** `/start` as the whole first word is the start command for any bot
      name, whatever follows it after whitespace. */
  lemma StartCommandAccepted(rest: string, botName: string)
    requires rest == [] || IsSpace(rest[0])
    ensures IsStartCommand("/start" + rest, botName)
  {
    SplitWord("/start", rest);
    assert Split("/start" + rest)[0][1..] == "start";
    assert Partition("start", '@') == ("start", []);
    assert Lower("start") == "start";
  }

  /** The command word is compared case-insensitively: "/START" is accepted
      as well. */
  lemma UpperStartAccepted(botName: string)
    ensures IsStartCommand("/START", botName)
  {
    assert "/START" == "/START" + [];
    SplitWord("/START", []);
    assert Split("/START")[0][1..] == "START";
    assert Partition("START", '@') == ("START", []);
    assert Lower("START") == "start";
  }

  /** Where the three buttons and `/start` go. The "past date" button has no
      handler of its own and falls to `handle_entry`, like the diary button. */
  lemma ButtonRoutes(botName: string)
    ensures Route("/start", botName) == Some(StartHandler)
    ensures Route(NewEntryLabel, botName) == Some(NewEntryHandler)
    ensures Route(DiaryLabel, botName) == Some(EntryHandler)
    ensures Route(PastDateLabel, botName) == Some(EntryHandler)
  {
    assert "/start" == "/start" + [];
    SplitWord("/start", []);
    assert Split("/start")[0][1..] == "start";
    assert Partition("start", '@') == ("start", []);
    assert Lower("start") == "start";
    RouteCases("/start", botName);

    LabelsHaveNoSlash();
    RouteCases(NewEntryLabel, botName);

    DiaryLabelPassesEntryFilter();
    RouteCases(DiaryLabel, botName);

    LeadingNonDigit(PastDateLabel);
    RouteCases(PastDateLabel, botName);
  }

  /** A text of digits and spaces only, such as "120 80", is answered by
      no handler: the entry filter rejects it and it is no command. */
  lemma DigitsOnlyUnrouted(text: string, botName: string)
    requires IsDigitString(RemoveSpaces(text))
    ensures Route(text, botName) == None
  {
    RouteCases(text, botName);
    if Split(text) != [] {
      SplitCharFromText(text, 0, 0);
    }
    LeadingNonDigit(NewEntryLabel);
    LeadingNonDigit(DiaryLabel);
  }

  /** A text that starts with a digit or `-` and contains `/` -- every reading
      in the format the prompt asks for -- is answered by no handler. */
  lemma SlashTextUnrouted(text: string, botName: string)
    requires text != [] && (IsDigit(text[0]) || text[0] == '-')
    requires '/' in text
    ensures Route(text, botName) == None
  {
    RouteCases(text, botName);
    SplitFirstChar(text);
    assert text[0] != NewEntryLabel[0];
    assert text[0] != DiaryLabel[0];
  }

  /** "S/D P" and "S/D" are left unanswered. */
  lemma ReadingsUnrouted(r: Reading, botName: string)
    ensures Route(EntryText(r), botName) == None
    ensures Route(PressureText(r.systolic, r.diastolic), botName) == None
  {
    var ss := IntToString(r.systolic);
    var full, short := EntryText(r), PressureText(r.systolic, r.diastolic);
    assert full[0] == ss[0] && full[|ss|] == '/';
    assert short[0] == ss[0] && short[|ss|] == '/';
    SlashTextUnrouted(full, botName);
    SlashTextUnrouted(short, botName);
  }
}
