/** The `pressure` table as a sequence of rows, the diary query of
    `show_diary` (bot.py:55) and the text of its reply (bot.py:57-63).
    The query selects the sender's rows, orders them by the `date` text
    descending, and keeps at most ten. SQL leaves the order of rows with
    equal dates open; the model keeps their table order, and nothing below
    depends on that choice. */
module Diary {
  import opened PyText

  /** One row of the `pressure` table (bot.py:15-22). */
  datatype Row = Row(userId: int, date: string, systolic: int, diastolic: int, pulse: int, note: string)

  const DiaryLimit: nat := 10
  const DiaryTitle: string := "📝 Последние записи:"
  const DiaryHeader: string := DiaryTitle + "\n"
  const NoEntriesReply: string := "📭 У вас пока нет записей."

  // ---------------------------------------------------------------------
  // WHERE user_id = ?

  function UserRows(table: seq<Row>, user: int): (mine: seq<Row>)
    ensures forall k :: 0 <= k < |mine| ==> mine[k].userId == user
  {
    if table == [] then []
    else (if table[0].userId == user then [table[0]] else []) + UserRows(table[1..], user)
  }

  /** The filter keeps each of the user's rows as often as the table holds
      it, and nothing else. */
  lemma {:induction false} UserRowsCount(table: seq<Row>, user: int, x: Row)
    ensures multiset(UserRows(table, user))[x] == if x.userId == user then multiset(table)[x] else 0
  {
    if table != [] {
      UserRowsCount(table[1..], user, x);
      assert table == [table[0]] + table[1..];
    }
  }

  /** Appending a row extends the user's rows only when it is theirs. */
  lemma {:induction false} UserRowsAppend(table: seq<Row>, x: Row, user: int)
    ensures UserRows(table + [x], user) == UserRows(table, user) + (if x.userId == user then [x] else [])
  {
    if table == [] {
      assert table + [x] == [x];
      assert [x][1..] == [];
    } else {
      assert (table + [x])[0] == table[0];
      assert (table + [x])[1..] == table[1..] + [x];
      UserRowsAppend(table[1..], x, user);
    }
  }

  lemma UserRowsEmpty(table: seq<Row>, user: int)
    ensures UserRows(table, user) == [] <==> forall k :: 0 <= k < |table| ==> table[k].userId != user
  {
    if UserRows(table, user) != [] {
      var x := UserRows(table, user)[0];
      assert x in multiset(UserRows(table, user));
      UserRowsCount(table, user, x);
      assert x in multiset(table);
      var k :| 0 <= k < |table| && table[k] == x;
      assert table[k].userId == user;
    }
    if exists k :: 0 <= k < |table| && table[k].userId == user {
      var k :| 0 <= k < |table| && table[k].userId == user;
      assert table[k] in multiset(table);
      UserRowsCount(table, user, table[k]);
    }
  }

  // ---------------------------------------------------------------------
  // ORDER BY date DESC

  /** Non-increasing in the text order of dates. */
  predicate NewestFirst(s: seq<Row>) {
    forall i, j :: 0 <= i < j < |s| ==> StrLeq(s[j].date, s[i].date)
  }

  /** `x` placed before the first row that is no newer than it: the rows
      of `s` with `x` added. */
  function InsertByDate(x: Row, s: seq<Row>): (r: seq<Row>)
    ensures multiset(r) == multiset(s) + multiset{x}
  {
    if s == [] || StrLeq(s[0].date, x.date) then [x] + s
    else
      assert s == [s[0]] + s[1..];
      [s[0]] + InsertByDate(x, s[1..])
  }

  /** `ORDER BY date DESC`: a permutation of the rows, newest date first. */
  function SortByDate(s: seq<Row>): (r: seq<Row>)
    ensures multiset(r) == multiset(s)
    ensures NewestFirst(r)
  {
    if s == [] then []
    else
      var rest := SortByDate(s[1..]);
      InsertByDateSorted(s[0], rest);
      assert s == [s[0]] + s[1..];
      InsertByDate(s[0], rest)
  }

  /** Putting `x` in front of a newest-first sequence whose head is no
      newer than `x` keeps it newest-first. */
  lemma InsertInFront(x: Row, s: seq<Row>)
    requires NewestFirst(s) && (s == [] || StrLeq(s[0].date, x.date))
    ensures NewestFirst([x] + s)
  {
    var r := [x] + s;
    forall i, j | 0 <= i < j < |r| ensures StrLeq(r[j].date, r[i].date) {
      if i == 0 && j > 1 { StrLeqTrans(s[j - 1].date, s[0].date, x.date); }
    }
  }

  /** Every row of `t` is no newer than `h`, and `t` is newest-first, so
      `[h] + t` is newest-first. */
  lemma ConsNewestFirst(h: Row, t: seq<Row>)
    requires NewestFirst(t)
    requires forall j :: 0 <= j < |t| ==> StrLeq(t[j].date, h.date)
    ensures NewestFirst([h] + t)
  {
    var r := [h] + t;
    forall i, j | 0 <= i < j < |r| ensures StrLeq(r[j].date, r[i].date) {
      if i == 0 { assert r[j] == t[j - 1]; }
      else { assert r[i] == t[i - 1] && r[j] == t[j - 1]; }
    }
  }

  /** The rows of `t`, a permutation of `s` plus `x`, are no newer than a
      row `h` that is no older than `x` and than every row of `s`. */
  lemma BoundedByHead(h: Row, x: Row, s: seq<Row>, t: seq<Row>)
    requires multiset(t) == multiset(s) + multiset{x}
    requires StrLeq(x.date, h.date)
    requires forall k :: 0 <= k < |s| ==> StrLeq(s[k].date, h.date)
    ensures forall j :: 0 <= j < |t| ==> StrLeq(t[j].date, h.date)
  {
    forall j | 0 <= j < |t| ensures StrLeq(t[j].date, h.date) {
      assert t[j] in multiset(t);
      if t[j] != x {
        assert t[j] in multiset(s);
        var k :| 0 <= k < |s| && s[k] == t[j];
      }
    }
  }

  lemma {:induction false} InsertByDateSorted(x: Row, s: seq<Row>)
    requires NewestFirst(s)
    ensures NewestFirst(InsertByDate(x, s))
  {
    if s == [] || StrLeq(s[0].date, x.date) {
      InsertInFront(x, s);
    } else {
      StrLeqTotal(s[0].date, x.date);
      InsertByDateSorted(x, s[1..]);
      var t := InsertByDate(x, s[1..]);
      assert forall k :: 0 <= k < |s[1..]| ==> StrLeq(s[1..][k].date, s[0].date) by {
        forall k | 0 <= k < |s[1..]| ensures StrLeq(s[1..][k].date, s[0].date) {
          assert s[1..][k] == s[k + 1];
        }
      }
      BoundedByHead(s[0], x, s[1..], t);
      ConsNewestFirst(s[0], t);
    }
  }

  // ---------------------------------------------------------------------
  // LIMIT 10

  function Min(a: int, b: int): int {
    if a <= b then a else b
  }

  /** `SELECT ... WHERE user_id = ? ORDER BY date DESC LIMIT 10`: up to ten
      of the sender's rows, newest first. */
  function DiaryQuery(table: seq<Row>, user: int): (listed: seq<Row>)
    ensures |listed| == Min(DiaryLimit, |UserRows(table, user)|)
    ensures NewestFirst(listed)
    ensures multiset(listed) <= multiset(UserRows(table, user))
  {
    var sorted := SortByDate(UserRows(table, user));
    var n := Min(DiaryLimit, |sorted|);
    TakeNewest(sorted, n);
    assert sorted == sorted[..n] + sorted[n..];
    assert |multiset(sorted)| == |multiset(UserRows(table, user))|;
    sorted[..n]
  }

  /** Keeping the first `n` rows of a newest-first sequence keeps them
      newest-first, and no row dropped is newer than a row kept. */
  lemma TakeNewest(sorted: seq<Row>, n: nat)
    requires NewestFirst(sorted) && n <= |sorted|
    ensures NewestFirst(sorted[..n])
    ensures forall x, k :: x in multiset(sorted) - multiset(sorted[..n]) && 0 <= k < n ==>
              StrLeq(x.date, sorted[..n][k].date)
  {
    var listed, omitted := sorted[..n], sorted[n..];
    assert sorted == listed + omitted;
    assert multiset(sorted) == multiset(listed) + multiset(omitted);
    forall x, k | x in multiset(sorted) - multiset(listed) && 0 <= k < n
      ensures StrLeq(x.date, listed[k].date)
    {
      assert x in multiset(omitted);
      var j :| 0 <= j < |omitted| && omitted[j] == x;
      assert sorted[n + j] == x && sorted[k] == listed[k];
    }
  }

  /** The listing holds only the sender's rows, as many of them as there
      are up to ten, newest date first; it is drawn from the sender's rows,
      and every row of theirs left out is no newer than any row listed. */
  lemma DiaryQuerySpec(table: seq<Row>, user: int)
    ensures var listed, mine := DiaryQuery(table, user), UserRows(table, user);
      && (forall k :: 0 <= k < |listed| ==> listed[k].userId == user)
      && |listed| == Min(DiaryLimit, |mine|)
      && NewestFirst(listed)
      && multiset(listed) <= multiset(mine)
      && (forall x, k :: x in multiset(mine) - multiset(listed) && 0 <= k < |listed| ==>
            StrLeq(x.date, listed[k].date))
  {
    var mine := UserRows(table, user);
    var sorted := SortByDate(mine);
    var n := Min(DiaryLimit, |sorted|);
    var listed := sorted[..n];
    assert listed == DiaryQuery(table, user);
    TakeNewest(sorted, n);
    forall k | 0 <= k < |listed| ensures listed[k].userId == user {
      assert listed[k] in multiset(mine);
    }
  }

  /** The "no entries" reply is sent exactly when the sender has no rows. */
  lemma DiaryEmpty(table: seq<Row>, user: int)
    ensures DiaryQuery(table, user) == [] <==> forall k :: 0 <= k < |table| ==> table[k].userId != user
    ensures DiaryReply(DiaryQuery(table, user)) == NoEntriesReply <==>
              forall k :: 0 <= k < |table| ==> table[k].userId != user
  {
    DiaryQuerySpec(table, user);
    UserRowsEmpty(table, user);
  }

  /** A listing reply starts differently from the "no entries" reply. */
  lemma HeaderDiffersFromNoEntries(lines: string)
    ensures DiaryHeader + lines != NoEntriesReply
  {
    assert (DiaryHeader + lines)[0] == DiaryHeader[0];
    assert DiaryHeader[0] != NoEntriesReply[0];
  }

  // ---------------------------------------------------------------------
  // The reply text

  /** One diary line: the date, a dash, systolic and diastolic pressure
      separated by a slash, then the pulse after the word "пульс", and a
      line break. The line starts with the date and ends with the break. */
  function FormatLine(r: Row): (line: string)
    ensures |line| > |r.date| && line[..|r.date|] == r.date
    ensures line[|line| - 1] == '\n'
  {
    var body := " — " + IntToString(r.systolic) + "/" + IntToString(r.diastolic)
                + ", пульс " + IntToString(r.pulse) + "\n";
    assert (r.date + body)[..|r.date|] == r.date;
    r.date + body
  }

  /** One line per row, in listing order; no rows, no text, and otherwise
      the text ends with a line break. */
  function Lines(rows: seq<Row>): (lines: string)
    ensures lines == [] <==> rows == []
    ensures rows != [] ==> lines[|lines| - 1] == '\n'
  {
    if rows == [] then [] else Lines(rows[..|rows| - 1]) + FormatLine(rows[|rows| - 1])
  }

  /** The lines of a prefix grow by one line per row. */
  lemma LinesPrefix(rows: seq<Row>, i: nat)
    requires i < |rows|
    ensures Lines(rows[..i + 1]) == Lines(rows[..i]) + FormatLine(rows[i])
  {
    assert rows[..i + 1][..i] == rows[..i];
  }

  /** A text holding a header and the lines of the first `i` rows, extended
      by the line of row `i`, holds the header and the first `i + 1` lines. */
  lemma AppendLine(header: string, rows: seq<Row>, i: nat)
    requires i < |rows|
    ensures (header + Lines(rows[..i])) + FormatLine(rows[i]) == header + Lines(rows[..i + 1])
  {
    LinesPrefix(rows, i);
    ConcatAssoc(header, Lines(rows[..i]), FormatLine(rows[i]));
  }

  lemma ConcatAssoc(a: string, b: string, c: string)
    ensures (a + b) + c == a + (b + c)
  {
  }

  /** The reply of `show_diary` for a listing: the "no entries" message
      exactly when the listing is empty, and otherwise the header followed
      by the lines. */
  function DiaryReply(listed: seq<Row>): (reply: string)
    ensures reply == NoEntriesReply <==> listed == []
    ensures listed != [] ==> |reply| > |DiaryHeader| && reply[..|DiaryHeader|] == DiaryHeader
  {
    if listed == [] then NoEntriesReply
    else
      HeaderDiffersFromNoEntries(Lines(listed));
      assert (DiaryHeader + Lines(listed))[..|DiaryHeader|] == DiaryHeader;
      DiaryHeader + Lines(listed)
  }

  lemma FormatLineOneNewline(r: Row)
    requires '\n' !in r.date
    ensures Count(FormatLine(r), '\n') == 1
  {
    var s, d, p := IntToString(r.systolic), IntToString(r.diastolic), IntToString(r.pulse);
    IntToStringNoSpace(r.systolic);
    IntToStringNoSpace(r.diastolic);
    IntToStringNoSpace(r.pulse);
    var body := " — " + s + "/" + d + ", пульс " + p + "\n";
    LineBodyOneNewline(s, d, p);
    CountAppend(r.date, body, '\n');
  }

  lemma LineBodyOneNewline(s: string, d: string, p: string)
    requires '\n' !in s && '\n' !in d && '\n' !in p
    ensures Count(" — " + s + "/" + d + ", пульс " + p + "\n", '\n') == 1
  {
    var a := " — " + s + "/" + d + ", пульс " + p;
    CountAppend(" — ", s, '\n');
    CountAppend(" — " + s, "/", '\n');
    CountAppend(" — " + s + "/", d, '\n');
    CountAppend(" — " + s + "/" + d, ", пульс ", '\n');
    CountAppend(" — " + s + "/" + d + ", пульс ", p, '\n');
    CountAppend(a, "\n", '\n');
  }

  lemma {:induction false} LinesCount(rows: seq<Row>)
    requires forall k :: 0 <= k < |rows| ==> '\n' !in rows[k].date
    ensures Count(Lines(rows), '\n') == |rows|
  {
    if rows != [] {
      LinesCount(rows[..|rows| - 1]);
      FormatLineOneNewline(rows[|rows| - 1]);
      CountAppend(Lines(rows[..|rows| - 1]), FormatLine(rows[|rows| - 1]), '\n');
    }
  }

  lemma TitleHasNoNewline()
    ensures Count(DiaryTitle, '\n') == 0
  {
    assert '\n' !in DiaryTitle;
  }

  lemma HeaderIsOneLine()
    ensures Count(DiaryHeader, '\n') == 1
  {
    TitleHasNoNewline();
    CountAppend(DiaryTitle, "\n", '\n');
  }

  /** A non-empty reply is the header line and then one line per listed row. */
  lemma DiaryReplyLines(listed: seq<Row>)
    requires listed != []
    requires forall k :: 0 <= k < |listed| ==> '\n' !in listed[k].date
    ensures Count(DiaryReply(listed), '\n') == |listed| + 1
  {
    LinesCount(listed);
    CountAppend(DiaryHeader, Lines(listed), '\n');
    HeaderIsOneLine();
  }
}
