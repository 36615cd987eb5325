/** `format_chat` (chat_formatter.py lines 76-125): parse the date column,
    group the rows by calendar day, pack each day's messages into chunks and
    emit one record per chunk, days in ascending order. */
module Formatting {
  import opened Frames
  import opened Messages
  import opened Days
  import opened Packing

  /** One row of the returned frame: the group's day, the chunk's start
      time, the chat name and the chunk text. */
  datatype Record = Record(date: Date, time: Option<string>, chatName: string, text: string)

  /** One record per chunk of a day, in chunk order. */
  function DayRecords(day: Date, chatName: string, cs: seq<Chunk>): (r: seq<Record>)
    ensures |r| == |cs|
    ensures forall k :: 0 <= k < |cs| ==> r[k] == Record(day, cs[k].start, chatName, cs[k].text)
  {
    if cs == [] then []
    else DayRecords(day, chatName, cs[..|cs| - 1]) + [Record(day, Last(cs).start, chatName, Last(cs).text)]
  }

  /** The records of the days `groups`, in their order, each day's chunks
      made by `pack`. */
  function Records(pack: seq<Message> -> seq<Chunk>, chatName: string, groups: seq<Group>): seq<Record> {
    if groups == [] then []
    else
      var g := Last(groups);
      Records(pack, chatName, groups[..|groups| - 1]) + DayRecords(g.day, chatName, pack(g.msgs))
  }

  /** The packer `format_chat` applies to every day. */
  function DayPacker(count: string -> nat, budget: int, chatName: string): seq<Message> -> seq<Chunk> {
    (msgs: seq<Message>) => PackDay(count, budget, chatName, msgs)
  }

  lemma DayRecordsSnoc(day: Date, chatName: string, cs: seq<Chunk>, c: Chunk)
    ensures DayRecords(day, chatName, cs + [c]) == DayRecords(day, chatName, cs) + [Record(day, c.start, chatName, c.text)]
  {
    assert (cs + [c])[..|cs|] == cs;
  }

  lemma EmitStep(before: seq<Record>, day: Date, chatName: string, cs: seq<Chunk>, k: nat)
    requires k < |cs|
    ensures before + DayRecords(day, chatName, cs[..k + 1]) ==
            before + DayRecords(day, chatName, cs[..k]) + [Record(day, cs[k].start, chatName, cs[k].text)]
  {
    SliceSnoc(cs, k);
    DayRecordsSnoc(day, chatName, cs[..k], cs[k]);
  }

  lemma RecordsSnoc(pack: seq<Message> -> seq<Chunk>, chatName: string, groups: seq<Group>, g: Group)
    ensures Records(pack, chatName, groups + [g]) == Records(pack, chatName, groups) + DayRecords(g.day, chatName, pack(g.msgs))
  {
    assert (groups + [g])[..|groups|] == groups;
  }

  /** What `format_chat` returns, or None where `pd.to_datetime` raises
      because a date does not parse. */
  function FormatChatSpec(ms: seq<Message>, chatName: string, budget: int, count: string -> nat): Option<seq<Record>> {
    match ParseDates(ms)
    case None => None
    case Some(rows) => Some(Records(DayPacker(count, budget, chatName), chatName, GroupByDay(rows)))
  }

  /** Lines 93-120 for one day's group: the packing loop, then the open
      chunk closed with the last sender's tag. */
  method PackGroup(msgs: seq<Message>, chatName: string, maxContextLength: int, count: string -> nat)
    returns (dayChunks: seq<Chunk>)
    ensures dayChunks == PackDay(count, maxContextLength, chatName, msgs)
  {
    dayChunks := [];
    var current := ChatHeader(chatName);
    var previous: Option<string> := None;
    var start: Option<string> := None;
    var i := 0;
    while i < |msgs|
      invariant 0 <= i <= |msgs|
      invariant Packer(current, previous, start, dayChunks) == Run(count, maxContextLength, chatName, msgs[..i])
    {
      var m := msgs[i];
      ghost var before := Packer(current, previous, start, dayChunks);
      if start.None? {
        start := Some(m.time);
      }
      var block;
      if previous == Some(m.sender) {
        block := " <br>\n" + m.text;
      } else {
        if previous.Some? {
          block := CloseTag(previous) + "\n" + OpenTurn(m);
        } else {
          block := OpenTurn(m);
        }
        previous := Some(m.sender);
      }
      assert block == Block(before.previous, m);
      ghost var after;
      if count(current + block) < maxContextLength {
        current := current + block;
        after := StepFitsValue(count, maxContextLength, chatName, before, m);
      } else {
        dayChunks := dayChunks + [Chunk(current + CloseTag(previous), start)];
        current := ChatHeader(chatName) + OpenTurn(m);
        previous := Some(m.sender);
        start := Some(m.time);
        after := StepOverflowValue(count, maxContextLength, chatName, before, m);
      }
      SliceSnoc(msgs, i);
      RunSnoc(count, maxContextLength, chatName, msgs[..i], m);
      i := i + 1;
    }
    SliceAll(msgs);
    if |current| > 0 {
      dayChunks := dayChunks + [Chunk(current + CloseTag(previous), start)];
    }
  }

  /** `format_chat`: None where `pd.to_datetime` raises, otherwise the
      records of every day group in ascending day order. */
  method FormatChat(ms: seq<Message>, chatName: string, maxContextLength: int, count: string -> nat)
    returns (out: Option<seq<Record>>)
    ensures out == FormatChatSpec(ms, chatName, maxContextLength, count)
  {
    var parsed := ParseDates(ms);
    if parsed.None? {
      return None;
    }
    var groups := GroupByDay(parsed.value);
    var formatted := FormatGroups(groups, chatName, maxContextLength, count);
    return Some(formatted);
  }

  /** The loop over the day groups (lines 91-123). */
  method FormatGroups(groups: seq<Group>, chatName: string, maxContextLength: int, count: string -> nat)
    returns (formatted: seq<Record>)
    ensures formatted == Records(DayPacker(count, maxContextLength, chatName), chatName, groups)
  {
    formatted := [];
    var g := 0;
    while g < |groups|
      invariant 0 <= g <= |groups|
      invariant formatted == Records(DayPacker(count, maxContextLength, chatName), chatName, groups[..g])
    {
      var group := groups[g];
      var dayChunks := PackGroup(group.msgs, chatName, maxContextLength, count);
      ghost var before := formatted;
      var k := 0;
      while k < |dayChunks|
        invariant 0 <= k <= |dayChunks|
        invariant formatted == before + DayRecords(group.day, chatName, dayChunks[..k])
      {
        EmitStep(before, group.day, chatName, dayChunks, k);
        formatted := formatted + [Record(group.day, dayChunks[k].start, chatName, dayChunks[k].text)];
        k := k + 1;
      }
      SliceAll(dayChunks);
      SliceSnoc(groups, g);
      RecordsSnoc(DayPacker(count, maxContextLength, chatName), chatName, groups[..g], group);
      g := g + 1;
    }
    SliceAll(groups);
  }

  /** Records come out day by day in ascending order of day, each dated
      with the day of its group. */
  lemma {:induction false} RecordsAscending(pack: seq<Message> -> seq<Chunk>, chatName: string, groups: seq<Group>)
    requires forall a, b :: 0 <= a < b < |groups| ==> Before(groups[a].day, groups[b].day)
    ensures forall a, b :: 0 <= a < b < |Records(pack, chatName, groups)| ==>
              NotAfter(Records(pack, chatName, groups)[a].date, Records(pack, chatName, groups)[b].date)
    ensures forall k :: 0 <= k < |Records(pack, chatName, groups)| ==>
              exists i :: 0 <= i < |groups| && Records(pack, chatName, groups)[k].date == groups[i].day
  {
    if groups != [] {
      var init := groups[..|groups| - 1];
      var g := Last(groups);
      RecordsAscending(pack, chatName, init);
      var front := Records(pack, chatName, init);
      var day := DayRecords(g.day, chatName, pack(g.msgs));
      var rs := Records(pack, chatName, groups);
      assert rs == front + day;
      RecordsBefore(pack, chatName, init, g.day);
      forall a, b | 0 <= a < b < |rs|
        ensures NotAfter(rs[a].date, rs[b].date)
      {
        if b < |front| {
          assert rs[a] == front[a] && rs[b] == front[b];
        } else if a < |front| {
          assert rs[a] == front[a] && rs[b].date == g.day;
        } else {
          assert rs[a].date == g.day && rs[b].date == g.day;
        }
      }
      forall k | 0 <= k < |rs|
        ensures exists i :: 0 <= i < |groups| && rs[k].date == groups[i].day
      {
        if k < |front| {
          var i :| 0 <= i < |init| && front[k].date == init[i].day;
          assert init[i] == groups[i];
          assert rs[k].date == groups[i].day;
        } else {
          assert rs[k].date == groups[|groups| - 1].day;
        }
      }
      assert forall k :: 0 <= k < |rs| ==> exists i :: 0 <= i < |groups| && rs[k].date == groups[i].day;
    } else {
      assert Records(pack, chatName, groups) == [];
    }
  }

  /** Days all before `d` give records all dated before `d`. */
  lemma {:induction false} RecordsBefore(pack: seq<Message> -> seq<Chunk>, chatName: string, groups: seq<Group>, d: Date)
    requires forall i :: 0 <= i < |groups| ==> Before(groups[i].day, d)
    ensures forall k :: 0 <= k < |Records(pack, chatName, groups)| ==> Before(Records(pack, chatName, groups)[k].date, d)
  {
    if groups != [] {
      var init := groups[..|groups| - 1];
      var g := Last(groups);
      assert forall i :: 0 <= i < |init| ==> init[i] == groups[i];
      RecordsBefore(pack, chatName, init, d);
      var front := Records(pack, chatName, init);
      var day := DayRecords(g.day, chatName, pack(g.msgs));
      assert Records(pack, chatName, groups) == front + day;
    }
  }

  /** The mask selecting the records of day `d`. */
  function DatedOn(d: Date): Record -> bool {
    (r: Record) => r.date == d
  }

  /** The records dated with a group's day are exactly that group's chunks,
      in order. */
  lemma {:induction false} RecordsOfDay(pack: seq<Message> -> seq<Chunk>, chatName: string, groups: seq<Group>, i: nat)
    requires forall a, b :: 0 <= a < b < |groups| ==> Before(groups[a].day, groups[b].day)
    requires i < |groups|
    ensures Where(Records(pack, chatName, groups), DatedOn(groups[i].day)) ==
            DayRecords(groups[i].day, chatName, pack(groups[i].msgs))
  {
    if i == |groups| - 1 {
      RecordsOfLastDay(pack, chatName, groups);
    } else {
      var init := groups[..|groups| - 1];
      assert init[i] == groups[i];
      RecordsOfDay(pack, chatName, init, i);
      RecordsOfEarlierDay(pack, chatName, groups, i);
    }
  }

  /** Only the last group's records carry the last day. */
  lemma RecordsOfLastDay(pack: seq<Message> -> seq<Chunk>, chatName: string, groups: seq<Group>)
    requires forall a, b :: 0 <= a < b < |groups| ==> Before(groups[a].day, groups[b].day)
    requires groups != []
    ensures Where(Records(pack, chatName, groups), DatedOn(Last(groups).day)) ==
            DayRecords(Last(groups).day, chatName, pack(Last(groups).msgs))
  {
    var g := Last(groups);
    var init := groups[..|groups| - 1];
    var front := Records(pack, chatName, init);
    var day := DayRecords(g.day, chatName, pack(g.msgs));
    assert Records(pack, chatName, groups) == front + day;
    WhereAppend(front, day, DatedOn(g.day));
    RecordsBefore(pack, chatName, init, g.day);
    WhereNone(front, DatedOn(g.day));
    WhereAll(day, DatedOn(g.day));
  }

  /** The last group adds no record of an earlier day. */
  lemma RecordsOfEarlierDay(pack: seq<Message> -> seq<Chunk>, chatName: string, groups: seq<Group>, i: nat)
    requires forall a, b :: 0 <= a < b < |groups| ==> Before(groups[a].day, groups[b].day)
    requires i < |groups| - 1
    requires Where(Records(pack, chatName, groups[..|groups| - 1]), DatedOn(groups[i].day)) ==
             DayRecords(groups[i].day, chatName, pack(groups[i].msgs))
    ensures Where(Records(pack, chatName, groups), DatedOn(groups[i].day)) ==
            DayRecords(groups[i].day, chatName, pack(groups[i].msgs))
  {
    var g := Last(groups);
    var front := Records(pack, chatName, groups[..|groups| - 1]);
    var day := DayRecords(g.day, chatName, pack(g.msgs));
    assert Records(pack, chatName, groups) == front + day;
    WhereAppend(front, day, DatedOn(groups[i].day));
    assert Before(groups[i].day, g.day);
    WhereNone(day, DatedOn(groups[i].day));
  }

  /** Every chunk begins with the header, records a start time and ends
      with a closing tag. */
  ghost predicate HeadedChunks(chatName: string, cs: seq<Chunk>) {
    forall k :: 0 <= k < |cs| ==>
      ChatHeader(chatName) <= cs[k].text && cs[k].start.Some? && EndsWithCloseTag(cs[k].text)
  }

  /** Every record carries the chat name, a start time and a text that
      begins with the header, when every day's chunks do. */
  lemma {:induction false} RecordsHeaded(pack: seq<Message> -> seq<Chunk>, chatName: string, groups: seq<Group>)
    requires forall i :: 0 <= i < |groups| ==> HeadedChunks(chatName, pack(groups[i].msgs))
    ensures forall k :: 0 <= k < |Records(pack, chatName, groups)| ==>
              Records(pack, chatName, groups)[k].chatName == chatName &&
              Records(pack, chatName, groups)[k].time.Some? &&
              ChatHeader(chatName) <= Records(pack, chatName, groups)[k].text &&
              EndsWithCloseTag(Records(pack, chatName, groups)[k].text)
  {
    if groups != [] {
      var init := groups[..|groups| - 1];
      var g := Last(groups);
      assert forall i :: 0 <= i < |init| ==> init[i] == groups[i];
      RecordsHeaded(pack, chatName, init);
      assert HeadedChunks(chatName, pack(g.msgs));
      var front := Records(pack, chatName, init);
      var day := DayRecords(g.day, chatName, pack(g.msgs));
      assert Records(pack, chatName, groups) == front + day;
    }
  }

  lemma PackerHeaded(count: string -> nat, budget: int, chatName: string, msgs: seq<Message>)
    requires msgs != []
    ensures HeadedChunks(chatName, DayPacker(count, budget, chatName)(msgs))
  {
    PackDayHeaders(count, budget, chatName, msgs);
  }

  /** `format_chat` fails exactly when some date does not parse. */
  lemma FormatChatFails(ms: seq<Message>, chatName: string, budget: int, count: string -> nat)
    ensures FormatChatSpec(ms, chatName, budget, count).None? <==>
            exists k :: 0 <= k < |ms| && ParseDate(ms[k].date).None?
  {
  }

  /** The returned records come in ascending order of day, and each
      carries the chat name, a start time and a text that begins with the
      header and ends with the closing tag of a sender. */
  lemma FormatChatOrder(ms: seq<Message>, chatName: string, budget: int, count: string -> nat)
    requires FormatChatSpec(ms, chatName, budget, count).Some?
    ensures var rs := FormatChatSpec(ms, chatName, budget, count).value;
            forall a, b :: 0 <= a < b < |rs| ==> NotAfter(rs[a].date, rs[b].date)
    ensures var rs := FormatChatSpec(ms, chatName, budget, count).value;
            forall k :: 0 <= k < |rs| ==>
              rs[k].chatName == chatName && rs[k].time.Some? &&
              ChatHeader(chatName) <= rs[k].text && EndsWithCloseTag(rs[k].text)
  {
    var groups := GroupByDay(ParseDates(ms).value);
    var pack := DayPacker(count, budget, chatName);
    RecordsAscending(pack, chatName, groups);
    forall i | 0 <= i < |groups|
      ensures HeadedChunks(chatName, pack(groups[i].msgs))
    {
      PackerHeaded(count, budget, chatName, groups[i].msgs);
    }
    RecordsHeaded(pack, chatName, groups);
  }

  /** The records of the day of message `j` are exactly the chunks packed
      from that day's messages in their original order. */
  lemma FormatChatDay(ms: seq<Message>, chatName: string, budget: int, count: string -> nat, j: nat)
    requires FormatChatSpec(ms, chatName, budget, count).Some?
    requires j < |ms|
    ensures ParseDate(ms[j].date).Some?
    ensures Where(FormatChatSpec(ms, chatName, budget, count).value, DatedOn(ParseDate(ms[j].date).value)) ==
            DayRecords(ParseDate(ms[j].date).value, chatName,
                       PackDay(count, budget, chatName, OnDay(ParseDates(ms).value, ParseDate(ms[j].date).value)))
  {
    var rows := ParseDates(ms).value;
    RowDayRecords(rows, chatName, budget, count, j);
  }

  /** The records of the day of row `j` are the chunks of that day's rows. */
  lemma RowDayRecords(rows: seq<Dated>, chatName: string, budget: int, count: string -> nat, j: nat)
    requires j < |rows|
    ensures Where(Records(DayPacker(count, budget, chatName), chatName, GroupByDay(rows)), DatedOn(rows[j].day)) ==
            DayRecords(rows[j].day, chatName, PackDay(count, budget, chatName, OnDay(rows, rows[j].day)))
  {
    var groups := GroupByDay(rows);
    var i :| 0 <= i < |groups| && groups[i].day == rows[j].day;
    RecordsOfDay(DayPacker(count, budget, chatName), chatName, groups, i);
  }
}
