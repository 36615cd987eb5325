/** The chunk packer of `format_chat` (lines 93-120): a greedy left fold over
    one day's messages that builds speaker-tagged chunks, asking a token
    counter whether the open chunk plus the next message's block stays under
    the budget. The counter (the tokenizer's `input_ids` length) is a
    parameter `count` about which nothing is assumed. */
module Packing {
  import opened Frames
  import opened Messages

  /** A finished chunk and its start time (None only for a day without messages). */
  datatype Chunk = Chunk(text: string, start: Option<string>)

  /** The first line of every chunk. */
  function ChatHeader(chatName: string): string {
    "<chat> " + chatName + " </chat>\n"
  }

  /** How `f"{previous_sender}"` renders: the sender, or `None` before any message. */
  function Name(sender: Option<string>): string {
    if sender.None? then "None" else sender.value
  }

  function CloseTag(sender: Option<string>): string {
    " </" + Name(sender) + ">"
  }

  /** A turn opened by `m`: its tag, a space and its body. */
  function OpenTurn(m: Message): string {
    "<" + m.sender + "> " + m.text
  }

  /** `message_block` (lines 102-108): the same speaker continues after a
      line-break marker; a new speaker closes the previous turn and opens
      its own; the first message of a day just opens its turn. */
  function Block(previous: Option<string>, m: Message): string {
    if previous == Some(m.sender) then " <br>\n" + m.text
    else if previous.Some? then CloseTag(previous) + "\n" + OpenTurn(m)
    else OpenTurn(m)
  }

  /** The loop state: `current_chunk`, `previous_sender`, `chunk_start_time`
      and the finished `day_chunks`. */
  datatype Packer = Packer(current: string, previous: Option<string>, start: Option<string>, done: seq<Chunk>)

  /** The state at the top of a day (lines 93-96). */
  function Begin(chatName: string): Packer {
    Packer(ChatHeader(chatName), None, None, [])
  }

  /** One row of the inner loop (lines 99-117). `previous_sender` already
      names `m`'s sender when the budget is checked, so an overflowing chunk
      is closed with that sender's tag. */
  function Step(count: string -> nat, budget: int, chatName: string, p: Packer, m: Message): Packer {
    var start := if p.start.None? then Some(m.time) else p.start;
    var block := Block(p.previous, m);
    var previous := Some(m.sender);
    if count(p.current + block) < budget then
      Packer(p.current + block, previous, start, p.done)
    else
      Packer(ChatHeader(chatName) + OpenTurn(m), previous, Some(m.time),
             p.done + [Chunk(p.current + CloseTag(previous), start)])
  }

  /** The state after the rows `ms`, folding from the left. */
  function Run(count: string -> nat, budget: int, chatName: string, ms: seq<Message>): Packer {
    if ms == [] then Begin(chatName)
    else Step(count, budget, chatName, Run(count, budget, chatName, ms[..|ms| - 1]), ms[|ms| - 1])
  }

  /** The chunks of one day: those closed on overflow, then the open chunk
      closed with the last sender's tag (lines 119-120). */
  function PackDay(count: string -> nat, budget: int, chatName: string, ms: seq<Message>): (r: seq<Chunk>)
    ensures |r| >= 1
  {
    var p := Run(count, budget, chatName, ms);
    p.done + [Chunk(p.current + CloseTag(p.previous), p.start)]
  }

  // ---------------------------------------------------------------------
  // What the chunks are: a split of the day's messages into consecutive
  // parts, one per chunk, each rendered after the header.

  function Last<T>(s: seq<T>): T
    requires s != []
  {
    s[|s| - 1]
  }

  function LastSender(seg: seq<Message>): Option<string> {
    if seg == [] then None else Some(Last(seg).sender)
  }

  /** The rendering of consecutive messages opened in one chunk. */
  function Turns(seg: seq<Message>): string {
    if seg == [] then ""
    else Turns(seg[..|seg| - 1]) + Block(LastSender(seg[..|seg| - 1]), Last(seg))
  }

  lemma TurnsSnoc(seg: seq<Message>, m: Message)
    ensures Turns(seg + [m]) == Turns(seg) + Block(LastSender(seg), m)
  {
    assert (seg + [m])[..|seg|] == seg;
  }

  /** The parts joined back together. */
  function Concat(ps: seq<seq<Message>>): seq<Message> {
    if ps == [] then [] else Concat(ps[..|ps| - 1]) + Last(ps)
  }

  lemma ConcatSnoc(ps: seq<seq<Message>>, x: seq<Message>)
    ensures Concat(ps + [x]) == Concat(ps) + x
  {
    assert (ps + [x])[..|ps|] == ps;
  }

  lemma ConcatExtendLast(ps: seq<seq<Message>>, m: Message)
    requires ps != []
    ensures Concat(ps[..|ps| - 1] + [Last(ps) + [m]]) == Concat(ps) + [m]
  {
    var init := ps[..|ps| - 1];
    SplitLast(ps);
    ConcatSnoc(init, Last(ps));
    ConcatSnoc(init, Last(ps) + [m]);
  }

  /** How many leading messages of part `i` were admitted by a budget check:
      in the first chunk of the day every message was, in a chunk opened by an
      overflow its first message was not. */
  function Checked(i: nat): nat {
    if i == 0 then 1 else 2
  }

  /** The time a chunk started: the day's first message for the first chunk,
      the message that overflowed into it for the others. */
  function StartTime(ms: seq<Message>, ps: seq<seq<Message>>, i: nat): string
    requires ms != [] && i < |ps| && (i > 0 ==> ps[i] != [])
  {
    if i == 0 then ms[0].time else ps[i][0].time
  }

  /** `ps` is the greedy split of `ms`: the parts concatenate to `ms`, only
      the first may be empty, every message admitted by a check fitted, and
      every part ends because its successor's first message did not fit. */
  ghost predicate GreedySplit(count: string -> nat, budget: int, chatName: string,
                              ms: seq<Message>, ps: seq<seq<Message>>) {
    |ps| >= 1 &&
    Concat(ps) == ms &&
    (forall i :: 0 < i < |ps| ==> ps[i] != []) &&
    (forall i :: 0 <= i < |ps| ==> Admitted(count, budget, chatName, ps[i], Checked(i))) &&
    (forall i :: 0 <= i < |ps| - 1 ==> !Fits(count, budget, chatName, ps[i] + [ps[i + 1][0]]))
  }

  /** The header followed by `seg` stays under the budget. */
  predicate Fits(count: string -> nat, budget: int, chatName: string, seg: seq<Message>) {
    count(ChatHeader(chatName) + Turns(seg)) < budget
  }

  /** Every prefix of `part` of at least `from` messages fits. */
  ghost predicate Admitted(count: string -> nat, budget: int, chatName: string, part: seq<Message>, from: nat) {
    forall j :: from <= j <= |part| ==> Fits(count, budget, chatName, part[..j])
  }

  lemma AdmittedSnoc(count: string -> nat, budget: int, chatName: string, part: seq<Message>, from: nat, m: Message)
    requires Admitted(count, budget, chatName, part, from)
    requires Fits(count, budget, chatName, part + [m])
    ensures Admitted(count, budget, chatName, part + [m], from)
  {
    forall j | from <= j <= |part| + 1
      ensures Fits(count, budget, chatName, (part + [m])[..j])
    {
      if j <= |part| {
        assert (part + [m])[..j] == part[..j];
      } else {
        assert (part + [m])[..j] == part + [m];
      }
    }
  }

  /** Finished chunk `i` renders part `i` after the header and is closed with
      the tag of the sender whose message overflowed it. */
  ghost predicate Closed(chatName: string, ms: seq<Message>, ps: seq<seq<Message>>, done: seq<Chunk>) {
    ms != [] && |ps| == |done| + 1 && (forall i :: 0 < i < |ps| ==> ps[i] != []) &&
    forall i :: 0 <= i < |done| ==>
      done[i] == Chunk(ChatHeader(chatName) + Turns(ps[i]) + CloseTag(Some(ps[i + 1][0].sender)),
                       Some(StartTime(ms, ps, i)))
  }

  /** The loop state after `ms` agrees with the split `ps`. */
  ghost predicate Tracks(count: string -> nat, budget: int, chatName: string,
                         ms: seq<Message>, p: Packer, ps: seq<seq<Message>>) {
    GreedySplit(count, budget, chatName, ms, ps) &&
    |ps| == |p.done| + 1 &&
    p.current == ChatHeader(chatName) + Turns(Last(ps)) &&
    p.previous == LastSender(ms) &&
    (ms == [] ==> ps == [[]] && p.start.None?) &&
    (ms != [] ==> Last(ps) != [] && Last(Last(ps)) == Last(ms)) &&
    (ms != [] ==> p.start == Some(StartTime(ms, ps, |ps| - 1))) &&
    (p.done != [] ==> Closed(chatName, ms, ps, p.done))
  }

  /** The split the fold makes: extend the open part when the block fits,
      start a new part otherwise. */
  ghost function Parts(count: string -> nat, budget: int, chatName: string, ms: seq<Message>): (ps: seq<seq<Message>>)
    ensures |ps| >= 1
  {
    if ms == [] then [[]]
    else
      var init := ms[..|ms| - 1];
      var m := Last(ms);
      var ps := Parts(count, budget, chatName, init);
      var p := Run(count, budget, chatName, init);
      if count(p.current + Block(p.previous, m)) < budget then ps[..|ps| - 1] + [Last(ps) + [m]]
      else ps + [[m]]
  }

  /** Appending a message that fits to the open part keeps the split greedy. */
  lemma FitsKeepsSplit(count: string -> nat, budget: int, chatName: string,
                       ms: seq<Message>, ps: seq<seq<Message>>, m: Message)
    requires GreedySplit(count, budget, chatName, ms, ps)
    requires Fits(count, budget, chatName, Last(ps) + [m])
    ensures GreedySplit(count, budget, chatName, ms + [m], ps[..|ps| - 1] + [Last(ps) + [m]])
  {
    ConcatExtendLast(ps, m);
    AdmittedSnoc(count, budget, chatName, Last(ps), Checked(|ps| - 1), m);
    ExtendLastAdmitted(count, budget, chatName, ps, m);
    ExtendLastBoundaries(count, budget, chatName, ps, m);
  }

  /** Extending the last part by a message that fits keeps every part admitted. */
  lemma ExtendLastAdmitted(count: string -> nat, budget: int, chatName: string, ps: seq<seq<Message>>, m: Message)
    requires ps != []
    requires forall i :: 0 <= i < |ps| ==> Admitted(count, budget, chatName, ps[i], Checked(i))
    requires Admitted(count, budget, chatName, Last(ps) + [m], Checked(|ps| - 1))
    ensures var ps' := ps[..|ps| - 1] + [Last(ps) + [m]];
            forall i :: 0 <= i < |ps'| ==> Admitted(count, budget, chatName, ps'[i], Checked(i))
  {
    var n := |ps|;
    var ps': seq<seq<Message>> := ps[..n - 1] + [Last(ps) + [m]];
    forall i | 0 <= i < n
      ensures Admitted(count, budget, chatName, ps'[i], Checked(i))
    {
      if i < n - 1 {
        assert ps'[i] == ps[i];
      }
    }
  }

  /** Extending the last part leaves every earlier boundary forced. */
  lemma ExtendLastBoundaries(count: string -> nat, budget: int, chatName: string, ps: seq<seq<Message>>, m: Message)
    requires ps != [] && forall i :: 0 < i < |ps| ==> ps[i] != []
    requires forall i :: 0 <= i < |ps| - 1 ==> !Fits(count, budget, chatName, ps[i] + [ps[i + 1][0]])
    ensures var ps' := ps[..|ps| - 1] + [Last(ps) + [m]];
            (forall i :: 0 < i < |ps'| ==> ps'[i] != []) &&
            forall i :: 0 <= i < |ps'| - 1 ==> !Fits(count, budget, chatName, ps'[i] + [ps'[i + 1][0]])
  {
    var n := |ps|;
    var ps': seq<seq<Message>> := ps[..n - 1] + [Last(ps) + [m]];
    forall i | 0 < i < n
      ensures ps'[i] != []
    {
      if i < n - 1 {
        assert ps'[i] == ps[i];
      }
    }
    forall i | 0 <= i < n - 1
      ensures !Fits(count, budget, chatName, ps'[i] + [ps'[i + 1][0]])
    {
      assert ps'[i] == ps[i];
      assert ps'[i + 1][0] == ps[i + 1][0];
    }
  }

  /** Starting a new part with a message that does not fit keeps the split greedy. */
  lemma OverflowKeepsSplit(count: string -> nat, budget: int, chatName: string,
                           ms: seq<Message>, ps: seq<seq<Message>>, m: Message)
    requires GreedySplit(count, budget, chatName, ms, ps)
    requires !Fits(count, budget, chatName, Last(ps) + [m])
    ensures GreedySplit(count, budget, chatName, ms + [m], ps + [[m]])
  {
    var n := |ps|;
    var ps': seq<seq<Message>> := ps + [[m]];
    ConcatSnoc(ps, [m]);
    forall i | 0 <= i < n + 1
      ensures Admitted(count, budget, chatName, ps'[i], Checked(i))
    {
      if i < n {
        assert ps'[i] == ps[i];
      }
    }
    forall i | 0 <= i < n
      ensures !Fits(count, budget, chatName, ps'[i] + [ps'[i + 1][0]])
    {
      if i < n - 1 {
        assert ps'[i] == ps[i] && ps'[i + 1] == ps[i + 1];
      } else {
        assert ps'[i] + [ps'[i + 1][0]] == Last(ps) + [m];
      }
    }
  }

  lemma FitsKeepsClosed(chatName: string, ms: seq<Message>, ps: seq<seq<Message>>, done: seq<Chunk>, m: Message)
    requires Closed(chatName, ms, ps, done)
    ensures Closed(chatName, ms + [m], ps[..|ps| - 1] + [Last(ps) + [m]], done)
  {
    var n := |ps|;
    var ms' := ms + [m];
    var ps': seq<seq<Message>> := ps[..n - 1] + [Last(ps) + [m]];
    forall i | 0 < i < n ensures ps'[i] != [] {
      if i < n - 1 {
        assert ps'[i] == ps[i];
      }
    }
    forall i | 0 <= i < |done|
      ensures done[i] == Chunk(ChatHeader(chatName) + Turns(ps'[i]) + CloseTag(Some(ps'[i + 1][0].sender)),
                               Some(StartTime(ms', ps', i)))
    {
      assert ps'[i] == ps[i];
      assert ps'[i + 1][0] == ps[i + 1][0];
      assert StartTime(ms', ps', i) == StartTime(ms, ps, i);
    }
  }

  lemma OverflowClosed(chatName: string, ms: seq<Message>, ps: seq<seq<Message>>, done: seq<Chunk>,
                       m: Message, start: Option<string>)
    requires |ps| == |done| + 1 && forall i :: 0 < i < |ps| ==> ps[i] != []
    requires done != [] ==> Closed(chatName, ms, ps, done)
    requires start == Some(StartTime(ms + [m], ps + [[m]], |ps| - 1))
    ensures Closed(chatName, ms + [m], ps + [[m]],
                   done + [Chunk(ChatHeader(chatName) + Turns(Last(ps)) + CloseTag(Some(m.sender)), start)])
  {
    var n := |ps|;
    var ms' := ms + [m];
    var ps': seq<seq<Message>> := ps + [[m]];
    var done': seq<Chunk> := done + [Chunk(ChatHeader(chatName) + Turns(Last(ps)) + CloseTag(Some(m.sender)), start)];
    forall i | 0 <= i < |done'|
      ensures done'[i] == Chunk(ChatHeader(chatName) + Turns(ps'[i]) + CloseTag(Some(ps'[i + 1][0].sender)),
                                Some(StartTime(ms', ps', i)))
    {
      if i < n - 1 {
        assert ps'[i] == ps[i] && ps'[i + 1] == ps[i + 1];
        assert StartTime(ms', ps', i) == StartTime(ms, ps, i);
      }
    }
  }

  /** The open chunk plus the next block is the header and the open part
      extended by the next message. */
  lemma BlockExtends(chatName: string, p: Packer, part: seq<Message>, m: Message)
    requires p.current == ChatHeader(chatName) + Turns(part)
    requires p.previous == LastSender(part)
    ensures p.current + Block(p.previous, m) == ChatHeader(chatName) + Turns(part + [m])
  {
    TurnsSnoc(part, m);
  }

  /** The last sender so far is the last sender of the open part. */
  lemma TracksPrevious(count: string -> nat, budget: int, chatName: string,
                       ms: seq<Message>, p: Packer, ps: seq<seq<Message>>)
    requires Tracks(count, budget, chatName, ms, p, ps)
    ensures p.current == ChatHeader(chatName) + Turns(Last(ps))
    ensures p.previous == LastSender(Last(ps))
  {
  }

  lemma TurnsSingle(m: Message)
    ensures Turns([m]) == OpenTurn(m)
  {
    TurnsSnoc([], m);
    assert [] + [m] == [m];
  }

  /** A row whose block fits extends the open chunk. */
  lemma StepFits(count: string -> nat, budget: int, chatName: string,
                 ms: seq<Message>, p: Packer, ps: seq<seq<Message>>, m: Message)
    requires Tracks(count, budget, chatName, ms, p, ps)
    requires count(p.current + Block(p.previous, m)) < budget
    ensures Tracks(count, budget, chatName, ms + [m], Step(count, budget, chatName, p, m),
                   ps[..|ps| - 1] + [Last(ps) + [m]])
  {
    var n := |ps|;
    var ps': seq<seq<Message>> := ps[..n - 1] + [Last(ps) + [m]];
    var ms' := ms + [m];
    TracksPrevious(count, budget, chatName, ms, p, ps);
    BlockExtends(chatName, p, Last(ps), m);
    FitsKeepsSplit(count, budget, chatName, ms, ps, m);
    if p.done != [] {
      FitsKeepsClosed(chatName, ms, ps, p.done, m);
    }
    var p' := StepFitsValue(count, budget, chatName, p, m);
    assert p'.start == Some(StartTime(ms', ps', n - 1)) by {
      if ms != [] {
        assert StartTime(ms', ps', n - 1) == StartTime(ms, ps, n - 1);
      }
    }
    assert Last(ps') == Last(ps) + [m];
    TracksIntro(count, budget, chatName, ms', p', ps');
  }

  lemma StepFitsValue(count: string -> nat, budget: int, chatName: string, p: Packer, m: Message) returns (p': Packer)
    requires count(p.current + Block(p.previous, m)) < budget
    ensures p' == Step(count, budget, chatName, p, m)
    ensures p' == Packer(p.current + Block(p.previous, m), Some(m.sender),
                         if p.start.None? then Some(m.time) else p.start, p.done)
  {
    p' := Step(count, budget, chatName, p, m);
  }

  /** A row whose block does not fit closes the open chunk and opens a new one. */
  lemma StepOverflows(count: string -> nat, budget: int, chatName: string,
                      ms: seq<Message>, p: Packer, ps: seq<seq<Message>>, m: Message)
    requires Tracks(count, budget, chatName, ms, p, ps)
    requires count(p.current + Block(p.previous, m)) >= budget
    ensures Tracks(count, budget, chatName, ms + [m], Step(count, budget, chatName, p, m), ps + [[m]])
  {
    TracksPrevious(count, budget, chatName, ms, p, ps);
    BlockExtends(chatName, p, Last(ps), m);
    OverflowKeepsSplit(count, budget, chatName, ms, ps, m);
    var start := OverflowStart(ms, p, ps, m);
    OverflowClosed(chatName, ms, ps, p.done, m, start);
    TurnsSingle(m);
    var p' := StepOverflowValue(count, budget, chatName, p, m);
    TracksIntro(count, budget, chatName, ms + [m], p', ps + [[m]]);
  }

  lemma StepOverflowValue(count: string -> nat, budget: int, chatName: string, p: Packer, m: Message) returns (p': Packer)
    requires count(p.current + Block(p.previous, m)) >= budget
    ensures p' == Step(count, budget, chatName, p, m)
    ensures p' == Packer(ChatHeader(chatName) + OpenTurn(m), Some(m.sender), Some(m.time),
                         p.done + [Chunk(p.current + CloseTag(Some(m.sender)),
                                         if p.start.None? then Some(m.time) else p.start)])
  {
    p' := Step(count, budget, chatName, p, m);
  }

  /** The start time the closed chunk records. */
  lemma OverflowStart(ms: seq<Message>, p: Packer, ps: seq<seq<Message>>, m: Message) returns (start: Option<string>)
    requires |ps| >= 1 && forall i :: 0 < i < |ps| ==> ps[i] != []
    requires ms == [] ==> |ps| == 1 && p.start.None?
    requires ms != [] ==> p.start == Some(StartTime(ms, ps, |ps| - 1))
    ensures start == (if p.start.None? then Some(m.time) else p.start)
    ensures start == Some(StartTime(ms + [m], ps + [[m]], |ps| - 1))
  {
    start := if p.start.None? then Some(m.time) else p.start;
    var n := |ps|;
    if ms != [] {
      assert StartTime(ms + [m], ps + [[m]], n - 1) == StartTime(ms, ps, n - 1);
    }
  }

  lemma TracksIntro(count: string -> nat, budget: int, chatName: string,
                    ms: seq<Message>, p: Packer, ps: seq<seq<Message>>)
    requires GreedySplit(count, budget, chatName, ms, ps)
    requires ms != [] && |ps| == |p.done| + 1
    requires p.current == ChatHeader(chatName) + Turns(Last(ps))
    requires p.previous == Some(Last(ms).sender)
    requires Last(ps) != [] && Last(Last(ps)) == Last(ms)
    requires p.start == Some(StartTime(ms, ps, |ps| - 1))
    requires p.done != [] ==> Closed(chatName, ms, ps, p.done)
    ensures Tracks(count, budget, chatName, ms, p, ps)
  {
  }

  /** The fold keeps its state in step with the greedy split. */
  lemma {:induction false} RunTracks(count: string -> nat, budget: int, chatName: string, ms: seq<Message>)
    ensures Tracks(count, budget, chatName, ms, Run(count, budget, chatName, ms), Parts(count, budget, chatName, ms))
  {
    if ms != [] {
      var init := ms[..|ms| - 1];
      assert ms == init + [Last(ms)];
      RunTracks(count, budget, chatName, init);
      var p := Run(count, budget, chatName, init);
      if count(p.current + Block(p.previous, Last(ms))) < budget {
        StepFits(count, budget, chatName, init, p, Parts(count, budget, chatName, init), Last(ms));
      } else {
        StepOverflows(count, budget, chatName, init, p, Parts(count, budget, chatName, init), Last(ms));
      }
    }
  }

  /** The tag chunk `i` is closed with: the sender who overflowed it, or for
      the last chunk the day's last sender. */
  function Closer(ms: seq<Message>, ps: seq<seq<Message>>, i: nat): Option<string>
    requires i < |ps| && forall k :: 0 < k < |ps| ==> ps[k] != []
  {
    if i + 1 < |ps| then Some(ps[i + 1][0].sender) else LastSender(ms)
  }

  /** Chunk `i` is the header, part `i` rendered, and its closing tag, and
      records when it started. */
  ghost predicate Renders(chatName: string, ms: seq<Message>, ps: seq<seq<Message>>, cs: seq<Chunk>)
    requires forall k :: 0 < k < |ps| ==> ps[k] != []
  {
    |cs| == |ps| && forall i :: 0 <= i < |cs| ==> RendersAt(chatName, ms, ps, cs[i], i)
  }

  /** Chunk `c` is part `i` rendered after the header, closed with its tag. */
  ghost predicate RendersAt(chatName: string, ms: seq<Message>, ps: seq<seq<Message>>, c: Chunk, i: nat)
    requires i < |ps| && forall k :: 0 < k < |ps| ==> ps[k] != []
  {
    c.text == ChatHeader(chatName) + Turns(ps[i]) + CloseTag(Closer(ms, ps, i)) &&
    c.start == (if ms == [] then None else Some(StartTime(ms, ps, i)))
  }

  /** The chunks of a day render its greedy split: every message lies in
      exactly one chunk, in order; every message admitted by a budget check
      fitted with the header; each chunk but the last ends because the next
      message did not fit; and a chunk that overflowed is closed with the tag
      of the sender who overflowed it. */
  lemma PackDayShape(count: string -> nat, budget: int, chatName: string, ms: seq<Message>)
    ensures GreedySplit(count, budget, chatName, ms, Parts(count, budget, chatName, ms))
    ensures Renders(chatName, ms, Parts(count, budget, chatName, ms), PackDay(count, budget, chatName, ms))
  {
    RunTracks(count, budget, chatName, ms);
    TracksRender(chatName, ms, Run(count, budget, chatName, ms), Parts(count, budget, chatName, ms));
  }

  /** Closing the open chunk of a tracked state renders the whole split. */
  lemma TracksRender(chatName: string, ms: seq<Message>, p: Packer, ps: seq<seq<Message>>)
    requires |ps| == |p.done| + 1 && forall k :: 0 < k < |ps| ==> ps[k] != []
    requires p.current == ChatHeader(chatName) + Turns(Last(ps))
    requires p.previous == LastSender(ms)
    requires ms == [] ==> p.start.None?
    requires ms != [] ==> p.start == Some(StartTime(ms, ps, |ps| - 1))
    requires p.done != [] ==> Closed(chatName, ms, ps, p.done)
    ensures Renders(chatName, ms, ps, p.done + [Chunk(p.current + CloseTag(p.previous), p.start)])
  {
    var last := Chunk(p.current + CloseTag(p.previous), p.start);
    if p.done != [] {
      ClosedAllRender(chatName, ms, ps, p.done);
    }
    OpenRenders(chatName, ms, p, ps);
    RendersSnoc(chatName, ms, ps, p.done, last);
  }

  /** Every closed chunk renders its part. */
  lemma ClosedAllRender(chatName: string, ms: seq<Message>, ps: seq<seq<Message>>, done: seq<Chunk>)
    requires Closed(chatName, ms, ps, done)
    ensures forall i :: 0 <= i < |done| ==> RendersAt(chatName, ms, ps, done[i], i)
  {
    forall i | 0 <= i < |done|
      ensures RendersAt(chatName, ms, ps, done[i], i)
    {
      ClosedRenders(chatName, ms, ps, done, i);
    }
  }

  /** Chunks rendering all parts but the last, followed by one rendering the last. */
  lemma RendersSnoc(chatName: string, ms: seq<Message>, ps: seq<seq<Message>>, done: seq<Chunk>, last: Chunk)
    requires |ps| == |done| + 1 && forall k :: 0 < k < |ps| ==> ps[k] != []
    requires forall i :: 0 <= i < |done| ==> RendersAt(chatName, ms, ps, done[i], i)
    requires RendersAt(chatName, ms, ps, last, |done|)
    ensures Renders(chatName, ms, ps, done + [last])
  {
    var cs := done + [last];
    forall i | 0 <= i < |cs|
      ensures RendersAt(chatName, ms, ps, cs[i], i)
    {
      if i < |done| {
        assert cs[i] == done[i];
      } else {
        assert cs[i] == last;
      }
    }
  }

  /** Closing the open chunk renders the last part. */
  lemma OpenRenders(chatName: string, ms: seq<Message>, p: Packer, ps: seq<seq<Message>>)
    requires |ps| >= 1 && forall k :: 0 < k < |ps| ==> ps[k] != []
    requires p.current == ChatHeader(chatName) + Turns(Last(ps))
    requires p.previous == LastSender(ms)
    requires ms == [] ==> p.start.None?
    requires ms != [] ==> p.start == Some(StartTime(ms, ps, |ps| - 1))
    ensures RendersAt(chatName, ms, ps, Chunk(p.current + CloseTag(p.previous), p.start), |ps| - 1)
  {
    assert Closer(ms, ps, |ps| - 1) == p.previous;
    assert Turns(ps[|ps| - 1]) == Turns(Last(ps));
  }

  lemma ClosedRenders(chatName: string, ms: seq<Message>, ps: seq<seq<Message>>, done: seq<Chunk>, i: nat)
    requires Closed(chatName, ms, ps, done) && i < |done|
    ensures RendersAt(chatName, ms, ps, done[i], i)
  {
    assert i + 1 < |ps| && ms != [];
    assert Closer(ms, ps, i) == Some(ps[i + 1][0].sender);
    assert done[i] == Chunk(ChatHeader(chatName) + Turns(ps[i]) + CloseTag(Some(ps[i + 1][0].sender)),
                            Some(StartTime(ms, ps, i)));
  }

  /** One more row is one more step. */
  lemma RunSnoc(count: string -> nat, budget: int, chatName: string, ms: seq<Message>, m: Message)
    ensures Run(count, budget, chatName, ms + [m]) == Step(count, budget, chatName, Run(count, budget, chatName, ms), m)
  {
    assert (ms + [m])[..|ms|] == ms;
  }

  /** A step never changes the chunks already closed. */
  lemma StepKeepsDone(count: string -> nat, budget: int, chatName: string, p: Packer, m: Message)
    ensures p.done <= Step(count, budget, chatName, p, m).done
  {
  }

  /** The text ends with the closing tag of some sender. */
  ghost predicate EndsWithCloseTag(text: string) {
    exists x :: EndsWith(text, CloseTag(Some(x)))
  }

  /** Every chunk starts with the header line; on a day with messages every
      chunk records a start time and ends with the closing tag of a sender. */
  lemma PackDayHeaders(count: string -> nat, budget: int, chatName: string, ms: seq<Message>)
    ensures forall i :: 0 <= i < |PackDay(count, budget, chatName, ms)| ==>
              ChatHeader(chatName) <= PackDay(count, budget, chatName, ms)[i].text &&
              (ms != [] ==> PackDay(count, budget, chatName, ms)[i].start.Some?)
    ensures ms != [] ==> forall i :: 0 <= i < |PackDay(count, budget, chatName, ms)| ==>
              EndsWithCloseTag(PackDay(count, budget, chatName, ms)[i].text)
  {
    PackDayShape(count, budget, chatName, ms);
    RendersHeaders(chatName, ms, Parts(count, budget, chatName, ms), PackDay(count, budget, chatName, ms));
  }

  lemma RendersHeaders(chatName: string, ms: seq<Message>, ps: seq<seq<Message>>, cs: seq<Chunk>)
    requires forall k :: 0 < k < |ps| ==> ps[k] != []
    requires Renders(chatName, ms, ps, cs)
    ensures forall i :: 0 <= i < |cs| ==> ChatHeader(chatName) <= cs[i].text && (ms != [] ==> cs[i].start.Some?)
    ensures ms != [] ==> forall i :: 0 <= i < |cs| ==> EndsWithCloseTag(cs[i].text)
  {
    forall i | 0 <= i < |cs|
      ensures ChatHeader(chatName) <= cs[i].text && (ms != [] ==> cs[i].start.Some?)
      ensures ms != [] ==> EndsWithCloseTag(cs[i].text)
    {
      assert RendersAt(chatName, ms, ps, cs[i], i);
      var closer := Closer(ms, ps, i);
      PrefixOfConcat3(ChatHeader(chatName), Turns(ps[i]), CloseTag(closer));
      SuffixOfConcat3(ChatHeader(chatName), Turns(ps[i]), CloseTag(closer));
      if ms != [] {
        assert closer.Some?;
        assert EndsWith(cs[i].text, CloseTag(Some(closer.value)));
      }
    }
  }

  /** One more row never changes the chunks already closed. */
  lemma RunSnocDone(count: string -> nat, budget: int, chatName: string, ms: seq<Message>, m: Message)
    ensures Run(count, budget, chatName, ms).done <= Run(count, budget, chatName, ms + [m]).done
  {
    RunSnoc(count, budget, chatName, ms, m);
    StepKeepsDone(count, budget, chatName, Run(count, budget, chatName, ms), m);
  }

  /** Chunks closed after the rows `pre` are still there, unchanged, after
      any further rows. */
  lemma {:induction false} DoneGrowsAppend(count: string -> nat, budget: int, chatName: string,
                                           pre: seq<Message>, post: seq<Message>)
    ensures Run(count, budget, chatName, pre).done <= Run(count, budget, chatName, pre + post).done
    decreases |post|
  {
    if post == [] {
      assert pre + post == pre;
    } else {
      var init := post[..|post| - 1];
      SplitLast(post);
      assert pre + post == (pre + init) + [Last(post)];
      DoneGrowsAppend(count, budget, chatName, pre, init);
      RunSnocDone(count, budget, chatName, pre + init, Last(post));
      PrefixTrans(Run(count, budget, chatName, pre).done, Run(count, budget, chatName, pre + init).done,
                  Run(count, budget, chatName, pre + post).done);
    }
  }

  /** Chunks already closed are never changed by later rows. */
  lemma DoneGrows(count: string -> nat, budget: int, chatName: string, ms: seq<Message>, k: nat)
    requires k <= |ms|
    ensures Run(count, budget, chatName, ms[..k]).done <= Run(count, budget, chatName, ms).done
  {
    assert ms == ms[..k] + ms[k..];
    DoneGrowsAppend(count, budget, chatName, ms[..k], ms[k..]);
  }

  /** A first message whose turn does not fit with the header alone yields a
      first chunk holding only the header and that sender's closing tag. */
  lemma FirstOverBudget(count: string -> nat, budget: int, chatName: string, ms: seq<Message>)
    requires ms != [] && count(ChatHeader(chatName) + OpenTurn(ms[0])) >= budget
    ensures PackDay(count, budget, chatName, ms)[0] ==
            Chunk(ChatHeader(chatName) + CloseTag(Some(ms[0].sender)), Some(ms[0].time))
  {
    assert ms[..1] == [] + [ms[0]];
    RunSnoc(count, budget, chatName, [], ms[0]);
    var first := StepOverflowValue(count, budget, chatName, Begin(chatName), ms[0]);
    DoneGrows(count, budget, chatName, ms, 1);
  }

  /** The chunk a second speaker overflows is closed with that second
      speaker's tag, not with the tag it opened. */
  lemma MismatchedCloseTag(count: string -> nat, budget: int, chatName: string, a: Message, b: Message)
    requires a.sender != b.sender
    requires count(ChatHeader(chatName) + OpenTurn(a)) < budget
    requires count(ChatHeader(chatName) + OpenTurn(a) + (CloseTag(Some(a.sender)) + "\n" + OpenTurn(b))) >= budget
    ensures PackDay(count, budget, chatName, [a, b]) ==
            [Chunk(ChatHeader(chatName) + OpenTurn(a) + CloseTag(Some(b.sender)), Some(a.time)),
             Chunk(ChatHeader(chatName) + OpenTurn(b) + CloseTag(Some(b.sender)), Some(b.time))]
  {
    RunSnoc(count, budget, chatName, [], a);
    RunSnoc(count, budget, chatName, [a], b);
    assert [] + [a] == [a] && [a] + [b] == [a, b];
    var p1 := StepFitsValue(count, budget, chatName, Begin(chatName), a);
    var p2 := StepOverflowValue(count, budget, chatName, p1, b);
  }

  /** With a budget nothing reaches, two messages of one sender and a reply
      from another share one chunk: the first sender's turns joined by the
      line-break marker, then the reply's turn, each turn closed. */
  lemma ScenarioLargeBudget(count: string -> nat, budget: int, chatName: string, a1: Message, a2: Message, b: Message)
    requires forall s :: count(s) < budget
    requires a1.sender == a2.sender && a1.sender != b.sender
    ensures PackDay(count, budget, chatName, [a1, a2, b]) ==
            [Chunk(ChatHeader(chatName) + OpenTurn(a1) + " <br>\n" + a2.text + CloseTag(Some(a1.sender)) + "\n" +
                   OpenTurn(b) + CloseTag(Some(b.sender)), Some(a1.time))]
  {
    ThreeSteps(count, budget, chatName, a1, a2, b);
    var p2 := SameSenderFits(count, budget, chatName, a1, a2);
    var p3 := StepFitsValue(count, budget, chatName, p2, b);
    assert p3.current == ChatHeader(chatName) + OpenTurn(a1) + " <br>\n" + a2.text + CloseTag(Some(a1.sender)) + "\n" + OpenTurn(b);
  }

  /** Two messages of one sender that fit share the first chunk, joined by
      the line-break marker. */
  lemma SameSenderFits(count: string -> nat, budget: int, chatName: string, a1: Message, a2: Message) returns (p2: Packer)
    requires a1.sender == a2.sender
    requires count(ChatHeader(chatName) + OpenTurn(a1)) < budget
    requires count(ChatHeader(chatName) + OpenTurn(a1) + (" <br>\n" + a2.text)) < budget
    ensures p2 == Step(count, budget, chatName, Step(count, budget, chatName, Begin(chatName), a1), a2)
    ensures p2 == Packer(ChatHeader(chatName) + OpenTurn(a1) + " <br>\n" + a2.text, Some(a1.sender), Some(a1.time), [])
  {
    var p1 := StepFitsValue(count, budget, chatName, Begin(chatName), a1);
    p2 := StepFitsValue(count, budget, chatName, p1, a2);
  }

  /** With a budget every addition reaches, each message opens its own
      chunk: the first chunk is the bare header closed with the first
      sender's tag, and the chunk the reply overflows still holds the first
      sender's turn but is closed with the reply's sender. */
  lemma ScenarioTinyBudget(count: string -> nat, budget: int, chatName: string, a1: Message, a2: Message, b: Message)
    requires forall s :: count(s) >= budget
    requires a1.sender == a2.sender && a1.sender != b.sender
    ensures PackDay(count, budget, chatName, [a1, a2, b]) ==
            [Chunk(ChatHeader(chatName) + CloseTag(Some(a1.sender)), Some(a1.time)),
             Chunk(ChatHeader(chatName) + OpenTurn(a1) + CloseTag(Some(a1.sender)), Some(a1.time)),
             Chunk(ChatHeader(chatName) + OpenTurn(a2) + CloseTag(Some(b.sender)), Some(a2.time)),
             Chunk(ChatHeader(chatName) + OpenTurn(b) + CloseTag(Some(b.sender)), Some(b.time))]
  {
    ThreeSteps(count, budget, chatName, a1, a2, b);
    var p1 := StepOverflowValue(count, budget, chatName, Begin(chatName), a1);
    var p2 := StepOverflowValue(count, budget, chatName, p1, a2);
    var p3 := StepOverflowValue(count, budget, chatName, p2, b);
  }

  lemma ThreeSteps(count: string -> nat, budget: int, chatName: string, a: Message, b: Message, c: Message)
    ensures Run(count, budget, chatName, [a, b, c]) ==
            Step(count, budget, chatName, Step(count, budget, chatName, Step(count, budget, chatName, Begin(chatName), a), b), c)
  {
    RunSnoc(count, budget, chatName, [], a);
    RunSnoc(count, budget, chatName, [a], b);
    RunSnoc(count, budget, chatName, [a, b], c);
    assert [] + [a] == [a] && [a] + [b] == [a, b] && [a, b] + [c] == [a, b, c];
  }
}
