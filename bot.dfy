/** The bot over its table: the `pressure` table is a field that
    `handle_entry` appends to (bot.py:46-48), `show_diary` reads it and
    builds its reply line by line (bot.py:55-63), and each text message is
    dispatched to the first registered handler that accepts it
    (bot.py:30-53). Replies are returned instead of sent; the sender's id
    and today's date come in as parameters. */
module Bot {
  import opened PyText
  import opened Dates
  import opened Entry
  import opened Router
  import opened Diary

  const StartReply: string := "👋 Я бот для ведения дневника давления. Выберите действие:"
  const PromptReply: string := "Введите данные в формате: САД/ДАД Пульс (например: 120/80 72)"
  const SavedReply: string := "✅ Запись сохранена!"
  const ErrorReply: string := "⚠️ Ошибка. Убедитесь, что вы ввели данные в правильном формате."

  /** sqlite3 binds a Python `int` as a signed 64-bit INTEGER; a value
      outside that range raises `OverflowError`, which the handler's bare
      `except` catches like a parse error. */
  predicate FitsInteger(n: int) {
    -0x8000_0000_0000_0000 <= n < 0x8000_0000_0000_0000
  }

  predicate Storable(r: Reading) {
    FitsInteger(r.systolic) && FitsInteger(r.diastolic) && FitsInteger(r.pulse)
  }

  /** The row `handle_entry` inserts: today's date as YYYY-MM-DD, an empty note. */
  function NewRow(user: int, today: Date, r: Reading): (row: Row)
    requires ValidDate(today)
    ensures row.userId == user && row.note == []
    ensures (row.systolic, row.diastolic, row.pulse) == (r.systolic, r.diastolic, r.pulse)
    ensures |row.date| == 10 && '\n' !in row.date
  {
    Row(user, FormatDate(today), r.systolic, r.diastolic, r.pulse, "")
  }

  class PressureBot {
    /** The rows of the `pressure` table, in insertion order. */
    var table: seq<Row>
    /** The bot's username, against which `/start@name` is checked. */
    const botName: string

    /** Opening the diary file: whatever rows it already holds. */
    constructor (existing: seq<Row>, botName: string)
      ensures table == existing && this.botName == botName
    {
      table := existing;
      this.botName := botName;
    }

    /** The body of `handle_entry`: parse the text and append one row, or
        leave the table alone and answer with the error message. */
    method HandleEntry(user: int, today: Date, text: string) returns (reply: string)
      requires ValidDate(today)
      modifies this
      ensures var parsed := ParseEntry(text);
        if parsed.Some? && Storable(parsed.value) then
          && table == old(table) + [NewRow(user, today, parsed.value)]
          && reply == SavedReply
        else
          && table == old(table)
          && reply == ErrorReply
    {
      var parsed := ParseEntry(text);
      if parsed.Some? && Storable(parsed.value) {
        table := table + [NewRow(user, today, parsed.value)];
        reply := SavedReply;
      } else {
        reply := ErrorReply;
      }
    }

    /** `show_diary`: the reply for the sender's latest ten rows, built one
        line at a time. */
    method ShowDiary(user: int) returns (reply: string)
      ensures reply == DiaryReply(DiaryQuery(table, user))
    {
      var rows := DiaryQuery(table, user);
      if rows == [] {
        reply := NoEntriesReply;
      } else {
        var text := DiaryHeader;
        for i := 0 to |rows|
          invariant text == DiaryHeader + Lines(rows[..i])
        {
          AppendLine(DiaryHeader, rows, i);
          text := text + FormatLine(rows[i]);
        }
        assert rows[..|rows|] == rows;
        reply := text;
      }
    }

    /** One text message: the handlers are tried in registration order and
        the first whose filter accepts runs; `None` means no reply. */
    method HandleMessage(user: int, today: Date, text: string) returns (reply: Option<string>)
      requires ValidDate(today)
      modifies this
      ensures table == old(table)
      ensures Route(text, botName) == None ==> reply == None
      ensures Route(text, botName) == Some(StartHandler) ==> reply == Some(StartReply)
      ensures Route(text, botName) == Some(NewEntryHandler) ==> reply == Some(PromptReply)
      ensures Route(text, botName) == Some(EntryHandler) ==> reply == Some(ErrorReply)
      ensures Route(text, botName) == Some(DiaryHandler) ==> reply == Some(DiaryReply(DiaryQuery(table, user)))
    {
      RouteCases(text, botName);
      if IsStartCommand(text, botName) {
        reply := Some(StartReply);
      } else if text == NewEntryLabel {
        reply := Some(PromptReply);
      } else if EntryFilter(text) {
        var r := HandleEntry(user, today, text);
        reply := Some(r);
      } else if text == DiaryLabel {
        var r := ShowDiary(user);
        reply := Some(r);
      } else {
        reply := None;
      }
    }
  }

  /** A saved row is the sender's newest-inserted row: their filtered rows
      gain exactly it at the end, so their diary is no longer empty. */
  lemma SavedRowJoinsDiary(table: seq<Row>, user: int, today: Date, r: Reading)
    requires ValidDate(today)
    ensures UserRows(table + [NewRow(user, today, r)], user) == UserRows(table, user) + [NewRow(user, today, r)]
    ensures DiaryQuery(table + [NewRow(user, today, r)], user) != []
  {
    var after := table + [NewRow(user, today, r)];
    UserRowsAppend(table, NewRow(user, today, r), user);
    assert after[|table|].userId == user;
    DiaryEmpty(after, user);
  }

  /** A row saved for one user leaves every other user's listing as it was. */
  lemma OtherUsersUnaffected(table: seq<Row>, user: int, today: Date, r: Reading, other: int)
    requires ValidDate(today) && other != user
    ensures DiaryQuery(table + [NewRow(user, today, r)], other) == DiaryQuery(table, other)
  {
    var after := table + [NewRow(user, today, r)];
    assert UserRows(after, other) == UserRows(table, other) by {
      UserRowsAppend(table, NewRow(user, today, r), other);
    }
  }
}
