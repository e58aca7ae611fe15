# Blood-pressure diary bot: a Dafny model of its message handling

`bot.py` is a Telegram bot that keeps a blood-pressure diary in one SQLite
table, `pressure(user_id, date, systolic, diastolic, pulse, note)`. The
model covers four things:

- How an incoming text message is routed. The handlers are tried in the
  order they are registered, and the first whose filter accepts the text
  runs.
- How `handle_entry` parses a reading such as `120/80 72` and appends a
  row.
- How `show_diary` selects the sender's ten most recent rows and builds
  its reply.
- The date text stamped on each row.

Modules, leaves first:

- `PyText` (`pytext.dfy`): the Python `str` behaviour the code depends on.
  This is `split()`, `split('/')`, `int()`, `str(int)`, `isdigit()`,
  `replace(' ', '')` and `lower()`. It also holds the code-point text
  order that SQLite's default collation uses to sort the `date` column.
- `Dates` (`dates.dfy`): `strftime('%Y-%m-%d')` of today's date. It also
  proves that text order on these strings is chronological order, which
  is what makes `ORDER BY date DESC` put the newest rows first.
- `Entry` (`entry.dfy`): the parser inside `handle_entry`. It is the pure
  function `ParseEntry`, whose `None` result stands for every `IndexError`
  and `ValueError` the parse raises.
- `Router` (`router.dfy`): the four filters and `Route`, a first-match
  search over the handlers in registration order.
- `Diary` (`diary.dfy`): the table as a sequence of rows, and the diary
  query. The query is a filter by user, a sort by date text (newest
  first) and a limit of 10. The module also holds the reply text.
- `Bot` (`bot.dfy`): the class `PressureBot`. Its `table` field is
  appended to by `HandleEntry`, `ShowDiary` builds its reply in a loop,
  and `HandleMessage` dispatches one message.

As written, the routing has two consequences, both proved:

- The entry filter only accepts texts with no `/` in them. The parser
  cannot succeed without one, so `handle_entry` never saves a reading and
  always answers with the error message (`EntryRouteNeverParses`). A
  reading typed in the format the prompt asks for, `120/80 72`, gets no
  reply at all (`ReadingsUnrouted`).
- The "📃 Посмотреть дневник" label also passes the entry filter, which is
  registered before the diary handler. So no text ever reaches
  `show_diary` (`DiaryUnreachable`).

`bot.py` has no back-dated entries, editing, deletion, `time` column or
latest-record lookup. The "🗓 Запись за прошедшую дату" button has no
handler of its own and falls through to `handle_entry`.

## Model

| member | source | states |
|---|---|---|
| `PyText.Split` | bot.py:41 | `split()` yields only non-empty words that contain no whitespace |
| `PyText.SplitCharFromText` | bot.py:41 | every character of every word of `split()` occurs in the text |
| `PyText.SplitWord` | bot.py:41 | a word followed by whitespace or the end of the text is the first item of `split()` |
| `PyText.SplitOn` | bot.py:42 | `split('/')` has one more piece than the text has `/`; no piece holds `/`; joining the pieces with `/` gives the text back |
| `PyText.SplitOnAt` | bot.py:42 | text before the first `/` is the first piece, and the remainder splits independently |
| `PyText.ParseIntRoundTrip` | bot.py:43-45 | `int(str(n)) == n` for every integer |
| `PyText.ParseInt` | bot.py:43-45 | a successful `int()` means that the token is made only of digits and signs |
| `PyText.IntToString` | bot.py:60 | `str(n)` as the f-string writes it: non-empty, a `-` in front exactly when `n` is negative, and digits everywhere else; `ParseIntRoundTrip` reads it back |
| `PyText.RemoveSpaces` | bot.py:38 | `replace(' ', '')` leaves no space, keeps every other character of the text, and adds none |
| `PyText.IsDigitString` | bot.py:38 | `isdigit()`: non-empty and every character an ASCII digit; `LeadingNonDigit` and `DigitsOnlyUnrouted` state what it makes of the entry filter |
| `PyText.StrLeq` | bot.py:55 | the code-point text order SQLite's default collation sorts the `date` column by; `StrLeqTotal`, `StrLeqTrans`, `StrLeqConcat` and `Dates.FormatDateOrder` state its contract |
| `PyText.StrLeqTotal` | bot.py:55 | any two date texts are comparable in the collation order |
| `PyText.StrLeqTrans` | bot.py:55 | the collation order is transitive |
| `PyText.StrLeqConcat` | bot.py:55 | of two texts starting with equal-length pieces, the first pieces decide the order unless they are equal |
| `Dates.FormatDate` | bot.py:47 | the date text has 10 characters, `-` at positions 4 and 7, and digits elsewhere |
| `Dates.PaddedValue` | bot.py:47 | the zero-padded digits of a number read back as that number |
| `Dates.PaddedOrder` | bot.py:47 | fixed-width digit strings compare as their numbers do |
| `Dates.FormatDateOrder` | bot.py:55 | for stored date texts, sorting by text (as `ORDER BY date` does) is sorting by calendar date, in both directions |
| `Dates.FormatDateInjective` | bot.py:47 | two dates have the same text exactly when they are the same date |
| `Entry.ParseEntry` | bot.py:41-45 | the parser of `handle_entry`; a successful parse implies that the text contains `/` (without one, `pressure[1]` raises) |
| `Entry.ParseFailsWithoutPressure` | bot.py:41-42 | an empty or blank text, or a first word without `/`, gives `None` (the error reply) |
| `Entry.ParseFailsOnBadNumber` | bot.py:43-45 | a systolic piece, a diastolic piece or a pulse word that is not an integer gives `None` (the error reply) |
| `Entry.ParseRoundTrip` | bot.py:41-45 | the text `"S/D P"` parses to `(S, D, P)` for all integers |
| `Entry.ParseDefaultPulse` | bot.py:45 | `"S/D"` parses to `(S, D, 0)`: a missing pulse is 0 |
| `Entry.ParseIgnoresExtra` | bot.py:41-45 | when a pulse word follows, extra `/`-pieces of the first word and everything after the pulse word are ignored |
| `Entry.ParseIgnoresExtraNoPulse` | bot.py:41-45 | without a pulse word, extra `/`-pieces of the first word are ignored and the pulse is 0: `"S/D/x"` gives `(S, D, 0)` |
| `Entry.ExampleFull` | bot.py:36 | `"120/80 72"`, the prompt's example, gives `(120, 80, 72)` |
| `Entry.ExampleNoPulse` | bot.py:45 | `"120/80"` gives `(120, 80, 0)` |
| `Entry.ExampleExtra` | bot.py:41-45 | `"120/80/5 72 x"` gives `(120, 80, 72)` |
| `Router.Partition` | bot.py:30 | `partition('@')` of the command word: the head holds no `@`, and head, `@` and tail give the word back; without `@` the head is the whole word |
| `Router.IsStartCommand` | bot.py:30 | the `commands=['start']` filter; it accepts only texts containing `/` |
| `Router.StartCommandAccepted` | bot.py:30 | `/start` as the first word, followed by whitespace or nothing, is accepted for any bot name |
| `Router.UpperStartAccepted` | bot.py:30 | the command is compared case-insensitively: `/START` is accepted |
| `Router.EntryFilter` | bot.py:38 | the filter of `handle_entry`; every text it accepts fails to parse |
| `Router.Accepts` | bot.py:30-53 | the four handler filters: the `/start` command, the exact label "📥 Сделать запись", the entry filter, the exact label "📃 Посмотреть дневник"; `RouteCases` states what they decide |
| `Router.FirstMatch` | bot.py:30-53 | the first handler, in order, that accepts: a chosen handler is one of them and accepts the text; none is chosen only when none accepts |
| `Router.Route` | bot.py:30-53 | dispatch over the handlers in registration order (`Registered`); the chosen handler accepts the text, and no reply means no handler accepts it |
| `Router.FirstMatchSpec` | bot.py:30-53 | the chosen handler accepts the text and no handler before it does; no handler is chosen exactly when none accepts |
| `Router.RouteCases` | bot.py:30-53 | each handler is chosen exactly when its filter accepts and all earlier filters reject, in the order `/start`, prompt label, entry filter, diary label |
| `Router.EntryRouteNeverParses` | bot.py:38-51 | every text routed to `handle_entry` fails to parse, so it gets the error reply and no row |
| `Router.DiaryUnreachable` | bot.py:38-53 | no text is ever routed to `show_diary` |
| `Router.ButtonRoutes` | bot.py:27-53 | `/start` goes to the start handler and "📥 Сделать запись" goes to the prompt; the diary and past-date labels go to `handle_entry` |
| `Router.DigitsOnlyUnrouted` | bot.py:38 | a text of only digits and spaces (e.g. `"120 80"`) gets no handler |
| `Router.SlashTextUnrouted` | bot.py:30-53 | a text that starts with a digit or `-` and contains `/` gets no handler |
| `Router.ReadingsUnrouted` | bot.py:36-38 | readings typed as `"S/D P"` or `"S/D"` get no handler, so they get no reply |
| `Diary.UserRows` | bot.py:55 | `WHERE user_id = ?` keeps only the sender's rows |
| `Diary.UserRowsCount` | bot.py:55 | the filter keeps each of the sender's rows exactly as often as the table holds it, and drops everything else |
| `Diary.UserRowsAppend` | bot.py:46-55 | appending a row adds it to the filter result of its own user only |
| `Diary.InsertByDate` | bot.py:55 | inserting a row adds exactly that row to the rows |
| `Diary.SortByDate` | bot.py:55 | `ORDER BY date DESC`: a permutation of its input whose dates are non-increasing |
| `Diary.TakeNewest` | bot.py:55 | the first `n` rows of a newest-first sequence are newest-first, and no dropped row is newer than a kept one |
| `Diary.DiaryQuery` | bot.py:55 | the full query: min(10, the sender's count) rows, newest first, drawn from the sender's rows |
| `Diary.DiaryQuerySpec` | bot.py:55-56 | the listing holds only the sender's rows; it has min(10, their count) rows in non-increasing date order, all taken from their rows; no omitted row is newer than a listed one |
| `Diary.DiaryEmpty` | bot.py:57-63 | the listing is empty exactly when the sender has no rows, and the reply is "📭 У вас пока нет записей." exactly then |
| `Diary.FormatLine` | bot.py:60 | one diary line: it starts with the row's date and ends with a line break |
| `Diary.FormatLineOneNewline` | bot.py:60 | a line whose date has no line break holds exactly one |
| `Diary.Lines` | bot.py:59-60 | the lines of the listing: empty exactly for no rows, and otherwise ending in a line break |
| `Diary.LinesCount` | bot.py:59-60 | the lines hold one line break per row |
| `Diary.LinesPrefix` | bot.py:59-60 | the loop's text grows by one formatted line per row, in listing order |
| `Diary.DiaryReply` | bot.py:57-63 | the reply is the "no entries" message exactly when the listing is empty, and otherwise starts with the header "📝 Последние записи:" |
| `Diary.DiaryReplyLines` | bot.py:57-61 | a non-empty reply has exactly one line more than there are rows listed (the header) |
| `Bot.FitsInteger` | bot.py:46-50 | the signed 64-bit range that `sqlite3` can bind; a value outside it raises `OverflowError`, which the bare `except` turns into the error reply (`HandleEntry` states the effect) |
| `Bot.Storable` | bot.py:46-50 | all three parsed values fit that range; `HandleEntry` saves a row exactly for a parsed, storable reading |
| `Bot.NewRow` | bot.py:46-47 | the inserted row carries the sender, a 10-character date, the parsed values and an empty note |
| `Bot.PressureBot.constructor` | bot.py:13-22 | the bot starts on whatever rows the database file already holds |
| `Bot.PressureBot.HandleEntry` | bot.py:39-51 | a parsed reading that SQLite can store appends exactly one row (sender, today as YYYY-MM-DD, S, D, P, "") after the unchanged old rows and answers "✅ Запись сохранена!"; anything else leaves the table unchanged and answers with the error message |
| `Bot.PressureBot.ShowDiary` | bot.py:54-63 | the reply is the header and one `date — s/d, пульс p` line per listed row, or the "no entries" message for an empty listing |
| `Bot.PressureBot.HandleMessage` | bot.py:30-53 | no message changes the table; the reply is the chosen handler's reply, or none when no handler accepts |
| `Bot.SavedRowJoinsDiary` | bot.py:46-48 | a saved row joins the end of the sender's rows, so their diary is no longer empty |
| `Bot.OtherUsersUnaffected` | bot.py:46-55 | a row saved for one user leaves every other user's listing unchanged |

## Left out

- Transport is not modelled: the aiogram `Bot` and `Dispatcher`, long polling, `async`/`await` and the reply keyboard (bot.py:1-2, 9-10, 26-28, 64-65). Replies are returned as strings, and `None` stands for "no reply".
- The SQLite connection, the `CREATE TABLE` and `commit` (bot.py:13-23, 48) are not modelled. The table is an in-memory sequence of rows. A storage error inside `handle_entry`'s `try` is not modelled either. The one binding error that is modelled is a value outside the signed 64-bit range, which `sqlite3` rejects with `OverflowError`.
- The user id is not range-checked before binding, because Telegram user ids fit in 64 bits.
- The bot token from `os.getenv` (bot.py:7) is configuration only.
- The clock is not modelled: `datetime.now()` (bot.py:47) becomes the `today` parameter. Years before 1000 are excluded, because how `strftime('%Y')` pads them depends on the platform.
- `Diary.DiaryQuerySpec`: does not state an order among rows with the same date, because SQL leaves that order open. The model's sort keeps table order among such rows, and no lemma relies on it.
- `PyText.ParseInt`: models `int()` as an optional sign and ASCII digits only. Python also accepts `_` between digits and non-ASCII decimal digits; those texts parse as `None` in the model.
- `PyText.IsDigitString`: `str.isdigit` is modelled over ASCII digits only. Other Unicode digits, such as superscripts, count as non-digits in the model.
- The `/start` filter comes from aiogram, not from `bot.py`. It is modelled from aiogram 2's command filter: the first word is `/`, a command and an optional `@mention`, compared case-insensitively with ASCII lowering. The bot's own username, which the library fetches from the server, is the `botName` field.
- A text of only whitespace makes the library's command filter index an empty word list. Telegram does not deliver such texts; the model treats them as not a command.
- Non-text messages, where `message.text` is `None`, are left out.
- A failure of `message.answer` inside `handle_entry`'s `try` is a network error and is left out.
- The `note` column is always written as the empty string. The diary query does not read it.
- Dates are written to the table only by `handle_entry`, as text. Rows added by other programs with non-text dates would sort differently under SQLite's type ordering, and that case is not modelled.
