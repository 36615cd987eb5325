/** `extract_messages`: a `findall` of the header-and-body pattern over the
    whole transcript, written out as an explicit scan. The pattern is

      (\d{1,2}/\d{1,2}/\d{2,4}), (\d{1,2}:\d{2}\s*[APM]*M?) - ([^:]+): (.*?)(?=P|$)

    where P is the date/time prefix `\d{1,2}/\d{1,2}/\d{2,4}, \d{1,2}:\d{2}\s*[APM]*M? - `,
    matched with the dot also matching line breaks. Every piece of the header
    has a single way to match (each digit group is a maximal run of digits
    ended by a non-digit separator, the sender is a maximal run of
    non-colons, and `\s*[APM]*M?` has one end that lets ` - ` follow; see
    TimeTailEndUnique), so backtracking never changes a match, and the lazy
    body stops at the first position where P or `$` matches. The ghost
    predicates DateMatch, TimeMatch, StampMatch, SenderMatch and HeaderMatch
    read the pattern's pieces declaratively, and the *Matches lemmas prove
    that each recogniser finds exactly what its piece matches. */
module Extraction {
  import opened Text
  import opened Frames
  import opened Messages

  /** What the date/time prefix captures, and the position just after its ` - `. */
  datatype Stamp = Stamp(date: string, time: string, next: nat)

  /** What a full header captures, and where its body starts. */
  datatype Head = Head(date: string, time: string, sender: string, bodyStart: nat)

  /** The separator ` - ` at position `e`. */
  predicate Dash(s: string, e: nat) {
    CharAt(s, e, ' ') && CharAt(s, e + 1, '-') && CharAt(s, e + 2, ' ')
  }

  /** `\s*[APM]*M?` can cover s[q..e] with the whitespace ending at `k`, and
      ` - ` follows at `e`. (`[APM]*M?` covers the same strings as `[APM]*`.) */
  ghost predicate TimeTail(s: string, q: nat, k: nat, e: nat) {
    q <= k <= e <= |s| &&
    (forall x :: q <= x < k ==> IsSpace(s[x])) &&
    (forall x :: k <= x < e ==> IsMeridiem(s[x])) &&
    Dash(s, e)
  }

  /** Where `\s*[APM]*M?` stops so that ` - ` follows, starting at `q`. */
  function TimeTailEnd(s: string, q: nat): (r: Option<nat>)
    requires q <= |s|
    ensures r.Some? ==> q <= r.value && Dash(s, r.value)
  {
    var w := Span(s, q, IsSpace);
    var a := Span(s, q + w, IsMeridiem);
    if a > 0 && Dash(s, q + w + a) then Some(q + w + a)
    else if a == 0 && w > 0 && Dash(s, q + w - 1) then Some(q + w - 1)
    else None
  }

  /** The end TimeTailEnd picks is one at which the pattern can match. */
  lemma {:induction false} TimeTailEndMatches(s: string, q: nat)
    requires q <= |s| && TimeTailEnd(s, q).Some?
    ensures TailTo(s, q, TimeTailEnd(s, q).value)
  {
    var w := Span(s, q, IsSpace);
    var a := Span(s, q + w, IsMeridiem);
    SpanCovers(s, q, IsSpace);
    SpanCovers(s, q + w, IsMeridiem);
    if a > 0 {
      assert TimeTail(s, q, q + w, q + w + a);
    } else {
      assert TimeTail(s, q, q + w - 1, q + w - 1);
    }
  }

  /** Every end at which the pattern can match is the one TimeTailEnd picks,
      so backtracking never finds an alternative. */
  lemma TimeTailEndUnique(s: string, q: nat, k: nat, e: nat)
    requires q <= |s| && TimeTail(s, q, k, e)
    ensures TimeTailEnd(s, q) == Some(e)
  {
    if k < e {
      MeridiemTail(s, q, k, e);
    } else {
      BareTail(s, q, e);
    }
  }

  /** With at least one of `[APM]`, the whitespace and the letters are both
      maximal runs. */
  lemma MeridiemTail(s: string, q: nat, k: nat, e: nat)
    requires TimeTail(s, q, k, e) && k < e
    ensures Span(s, q, IsSpace) == k - q && Span(s, k, IsMeridiem) == e - k
  {
    assert s[e] == ' ' && IsMeridiem(s[k]);
    SpanExact(s, q, k, IsSpace);
    SpanExact(s, k, e, IsMeridiem);
  }

  /** Without letters, the whitespace run takes in the space of ` - `. */
  lemma BareTail(s: string, q: nat, e: nat)
    requires TimeTail(s, q, e, e)
    ensures Span(s, q, IsSpace) == e + 1 - q && Span(s, e + 1, IsMeridiem) == 0
  {
    assert s[e] == ' ' && s[e + 1] == '-';
    SpanExact(s, q, e + 1, IsSpace);
    SpanExact(s, e + 1, e + 1, IsMeridiem);
  }

  /** A maximal run of `lo` to `hi` digits at `i`, followed by `sep`; the
      position just after the digits. */
  function DigitsThen(s: string, i: nat, lo: nat, hi: nat, sep: char): (r: Option<nat>)
    requires i <= |s|
    ensures r.Some? ==> i + lo <= r.value <= i + hi && CharAt(s, r.value, sep)
  {
    var n := Span(s, i, IsDigit);
    if lo <= n <= hi && CharAt(s, i + n, sep) then Some(i + n) else None
  }

  /** The date group `\d{1,2}/\d{1,2}/\d{2,4}` at `i`, followed by `, `;
      the position just after the year. */
  function DateEnd(s: string, i: nat): (r: Option<nat>)
    requires i <= |s|
    ensures r.Some? ==> i < r.value && r.value + 2 <= |s|
  {
    match DigitsThen(s, i, 1, 2, '/')
    case None => None
    case Some(j) =>
      match DigitsThen(s, j + 1, 1, 2, '/')
      case None => None
      case Some(k) =>
        match DigitsThen(s, k + 1, 2, 4, ',')
        case None => None
        case Some(y) => if CharAt(s, y + 1, ' ') then Some(y) else None
  }

  /** The time group `\d{1,2}:\d{2}\s*[APM]*M?` at `h`, followed by ` - `;
      the position where the group ends. */
  function TimeEnd(s: string, h: nat): (r: Option<nat>)
    requires h <= |s|
    ensures r.Some? ==> h < r.value && Dash(s, r.value)
  {
    match DigitsThen(s, h, 1, 2, ':')
    case None => None
    case Some(c) =>
      if c + 3 <= |s| && IsDigit(s[c + 1]) && IsDigit(s[c + 2]) then TimeTailEnd(s, c + 3)
      else None
  }

  /** The date/time prefix `\d{1,2}/\d{1,2}/\d{2,4}, \d{1,2}:\d{2}\s*[APM]*M? - `
      at position `i`, with the date and time groups it captures. */
  function DateTimeAt(s: string, i: nat): (r: Option<Stamp>)
    requires i <= |s|
    ensures r.Some? ==> i + 3 < r.value.next <= |s| && Dash(s, r.value.next - 3)
  {
    match DateEnd(s, i)
    case None => None
    case Some(y) => StampAfter(s, i, y)
  }

  /** The time group after the date s[i..y] and its `, `, completing the
      date/time prefix with both captures. */
  function StampAfter(s: string, i: nat, y: nat): (r: Option<Stamp>)
    requires i <= y && y + 2 <= |s|
    ensures r.Some? ==> y + 5 < r.value.next <= |s| && Dash(s, r.value.next - 3)
  {
    match TimeEnd(s, y + 2)
    case None => None
    case Some(e) => Some(Stamp(s[i..y], s[y + 2..e], e + 3))
  }

  /** The full header `date, time - sender: ` at position `i`. */
  function HeaderAt(s: string, i: nat): (r: Option<Head>)
    requires i <= |s|
    ensures r.Some? ==> DateTimeAt(s, i).Some? && i < r.value.bodyStart <= |s|
  {
    match DateTimeAt(s, i)
    case None => None
    case Some(st) => SenderAfter(s, st)
  }

  /** The sender group `([^:]+): ` after the date/time prefix `st`, completing
      the header with the prefix's captures. */
  function SenderAfter(s: string, st: Stamp): (r: Option<Head>)
    requires st.next <= |s|
    ensures r.Some? ==> st.next < r.value.bodyStart <= |s|
  {
    var n := Span(s, st.next, NotColon);
    if n >= 1 && CharAt(s, st.next + n, ':') && CharAt(s, st.next + n + 1, ' ') then
      Some(Head(st.date, st.time, s[st.next..st.next + n], st.next + n + 2))
    else None
  }

  /** Declarative reading of the pattern's pieces, for the recognisers above.

      `\d{lo,hi}` followed by `sep`: the digits occupy s[i..j] and `sep` is at `j`. */
  ghost predicate DigitsSep(s: string, i: nat, j: nat, lo: nat, hi: nat, sep: char) {
    CharAt(s, j, sep) && i + lo <= j <= i + hi && forall x :: i <= x < j ==> IsDigit(s[x])
  }

  /** `\d{1,2}/\d{1,2}/\d{2,4}, ` at `i`, the year ending at `y`. */
  ghost predicate DateMatch(s: string, i: nat, y: nat) {
    exists j: nat :: DigitsSep(s, i, j, 1, 2, '/') && MonthDayRest(s, j + 1, y)
  }

  /** `\d{1,2}/\d{2,4}, ` at `j`: the rest of the date after the first slash. */
  ghost predicate MonthDayRest(s: string, j: nat, y: nat) {
    exists k: nat :: DigitsSep(s, j, k, 1, 2, '/') && DigitsSep(s, k + 1, y, 2, 4, ',') && CharAt(s, y + 1, ' ')
  }

  /** `\d{1,2}:\d{2}\s*[APM]*M?` at `h`, ending at `e` where ` - ` follows. */
  ghost predicate TimeMatch(s: string, h: nat, e: nat) {
    exists c: nat :: DigitsSep(s, h, c, 1, 2, ':') && c + 3 <= |s| && IsDigit(s[c + 1]) &&
                     IsDigit(s[c + 2]) && TailTo(s, c + 3, e)
  }

  /** `\s*[APM]*M?` can run from `q` to `e` with ` - ` following. */
  ghost predicate TailTo(s: string, q: nat, e: nat) {
    exists w: nat :: TimeTail(s, q, w, e)
  }

  /** The date/time prefix matches at `i` with the captures and end of `st`. */
  ghost predicate StampMatch(s: string, i: nat, st: Stamp) {
    exists y: nat :: i <= y && DateMatch(s, i, y) && TimeAfterDate(s, i, y, st)
  }

  /** After a date s[i..y] and its `, `, the time group matches with the captures of `st`. */
  ghost predicate TimeAfterDate(s: string, i: nat, y: nat, st: Stamp)
    requires i <= y
  {
    var t := y + 2;
    exists e: nat :: t <= e <= |s| && TimeMatch(s, t, e) && st == Stamp(s[i..y], s[t..e], e + 3)
  }

  /** `([^:]+): ` at `p`: the sender is s[p..c] and the body starts after `: `. */
  ghost predicate SenderMatch(s: string, p: nat, sender: string, bodyStart: nat) {
    exists c: nat :: p < c && c + 1 < |s| && NoColon(s, p, c) &&
                     s[c] == ':' && s[c + 1] == ' ' && sender == s[p..c] && bodyStart == c + 2
  }

  /** `[^:]` covers s[p..c]. */
  ghost predicate NoColon(s: string, p: nat, c: nat)
    requires c <= |s|
  {
    forall x :: p <= x < c ==> NotColon(s[x])
  }

  /** The whole header `(date), (time) - (sender): ` matches at `i` with the captures of `h`. */
  ghost predicate HeaderMatch(s: string, i: nat, h: Head) {
    exists next: nat :: StampMatch(s, i, Stamp(h.date, h.time, next)) && SenderMatch(s, next, h.sender, h.bodyStart)
  }

  /** A digit group is found exactly where the pattern's digits and separator are. */
  lemma {:induction false} DigitsThenMatches(s: string, i: nat, lo: nat, hi: nat, sep: char, j: nat)
    requires i <= |s| && !IsDigit(sep)
    ensures DigitsThen(s, i, lo, hi, sep) == Some(j) <==> DigitsSep(s, i, j, lo, hi, sep)
  {
    SpanCovers(s, i, IsDigit);
    if DigitsSep(s, i, j, lo, hi, sep) {
      SpanExact(s, i, j, IsDigit);
    }
  }

  /** DateEnd finds exactly the date groups the pattern matches. */
  lemma {:induction false} DateEndMatches(s: string, i: nat, y: nat)
    requires i <= |s|
    ensures DateEnd(s, i) == Some(y) <==> DateMatch(s, i, y)
  {
    if DateEnd(s, i) == Some(y) {
      DateEndSound(s, i);
    }
    if DateMatch(s, i, y) {
      DateEndComplete(s, i, y);
    }
  }

  lemma {:induction false} DateEndSound(s: string, i: nat)
    requires i <= |s| && DateEnd(s, i).Some?
    ensures DateMatch(s, i, DateEnd(s, i).value)
  {
    var y := DateEnd(s, i).value;
    var j := DigitsThen(s, i, 1, 2, '/').value;
    var j1 := j + 1;
    var k := DigitsThen(s, j1, 1, 2, '/').value;
    var k1 := k + 1;
    DigitsThenMatches(s, i, 1, 2, '/', j);
    DigitsThenMatches(s, j1, 1, 2, '/', k);
    DigitsThenMatches(s, k1, 2, 4, ',', y);
    assert MonthDayRest(s, j1, y);
  }

  lemma {:induction false} DateEndComplete(s: string, i: nat, y: nat)
    requires i <= |s| && DateMatch(s, i, y)
    ensures DateEnd(s, i) == Some(y)
  {
    var j: nat :| DigitsSep(s, i, j, 1, 2, '/') && MonthDayRest(s, j + 1, y);
    var k: nat :| DigitsSep(s, j + 1, k, 1, 2, '/') && DigitsSep(s, k + 1, y, 2, 4, ',') && CharAt(s, y + 1, ' ');
    DigitsThenMatches(s, i, 1, 2, '/', j);
    DigitsThenMatches(s, j + 1, 1, 2, '/', k);
    DigitsThenMatches(s, k + 1, 2, 4, ',', y);
    DateEndFrom(s, i, j, k, y);
  }

  /** Three digit groups with their separators, and a space, make the date group. */
  lemma {:induction false} DateEndFrom(s: string, i: nat, j: nat, k: nat, y: nat)
    requires i <= |s| && DigitsThen(s, i, 1, 2, '/') == Some(j)
    requires j + 1 <= |s| && DigitsThen(s, j + 1, 1, 2, '/') == Some(k)
    requires k + 1 <= |s| && DigitsThen(s, k + 1, 2, 4, ',') == Some(y) && CharAt(s, y + 1, ' ')
    ensures DateEnd(s, i) == Some(y)
  {
  }

  /** TimeEnd finds exactly the time groups the pattern matches. */
  lemma {:induction false} TimeEndMatches(s: string, h: nat, e: nat)
    requires h <= |s|
    ensures TimeEnd(s, h) == Some(e) <==> TimeMatch(s, h, e)
  {
    if TimeEnd(s, h) == Some(e) {
      TimeEndSound(s, h);
    }
    if TimeMatch(s, h, e) {
      TimeEndComplete(s, h, e);
    }
  }

  lemma {:induction false} TimeEndSound(s: string, h: nat)
    requires h <= |s| && TimeEnd(s, h).Some?
    ensures TimeMatch(s, h, TimeEnd(s, h).value)
  {
    var c := DigitsThen(s, h, 1, 2, ':').value;
    DigitsThenMatches(s, h, 1, 2, ':', c);
    TimeTailEndMatches(s, c + 3);
    assert DigitsSep(s, h, c, 1, 2, ':');
  }

  lemma {:induction false} TimeEndComplete(s: string, h: nat, e: nat)
    requires h <= |s| && TimeMatch(s, h, e)
    ensures TimeEnd(s, h) == Some(e)
  {
    var c: nat :| DigitsSep(s, h, c, 1, 2, ':') && c + 3 <= |s| && IsDigit(s[c + 1]) &&
                  IsDigit(s[c + 2]) && TailTo(s, c + 3, e);
    DigitsThenMatches(s, h, 1, 2, ':', c);
    TailToEnd(s, c + 3, e);
    TimeEndFrom(s, h, c, e);
  }

  /** TimeTailEnd finds every end the tail pattern can reach. */
  lemma {:induction false} TailToEnd(s: string, q: nat, e: nat)
    requires q <= |s| && TailTo(s, q, e)
    ensures TimeTailEnd(s, q) == Some(e)
  {
    var w: nat :| TimeTail(s, q, w, e);
    TimeTailEndUnique(s, q, w, e);
  }

  /** The minutes and the tail found after the hour digits make the time group. */
  lemma {:induction false} TimeEndFrom(s: string, h: nat, c: nat, e: nat)
    requires h <= |s| && DigitsThen(s, h, 1, 2, ':') == Some(c)
    requires c + 3 <= |s| && IsDigit(s[c + 1]) && IsDigit(s[c + 2]) && TimeTailEnd(s, c + 3) == Some(e)
    ensures TimeEnd(s, h) == Some(e)
  {
  }

  /** DateTimeAt finds exactly the date/time prefixes the pattern matches,
      with the same captures. */
  lemma {:induction false} DateTimeAtMatches(s: string, i: nat, st: Stamp)
    requires i <= |s|
    ensures DateTimeAt(s, i) == Some(st) <==> StampMatch(s, i, st)
  {
    if DateTimeAt(s, i) == Some(st) {
      DateTimeAtSound(s, i);
    }
    if StampMatch(s, i, st) {
      DateTimeAtComplete(s, i, st);
    }
  }

  lemma {:induction false} DateTimeAtSound(s: string, i: nat)
    requires i <= |s| && DateTimeAt(s, i).Some?
    ensures StampMatch(s, i, DateTimeAt(s, i).value)
  {
    var y := DateEnd(s, i).value;
    DateTimeAtOf(s, i, y);
    DateEndSound(s, i);
    StampAfterSound(s, i, y);
  }

  lemma {:induction false} DateTimeAtComplete(s: string, i: nat, st: Stamp)
    requires i <= |s| && StampMatch(s, i, st)
    ensures DateTimeAt(s, i) == Some(st)
  {
    var y: nat :| i <= y && DateMatch(s, i, y) && TimeAfterDate(s, i, y, st);
    DateEndComplete(s, i, y);
    DateTimeAtOf(s, i, y);
    StampAfterComplete(s, i, y, st);
  }

  /** Once the date is found, the prefix is whatever the time group makes of it. */
  lemma {:induction false} DateTimeAtOf(s: string, i: nat, y: nat)
    requires i <= |s| && DateEnd(s, i) == Some(y)
    ensures DateTimeAt(s, i) == StampAfter(s, i, y)
  {
  }

  /** StampAfter finds exactly the time groups the pattern matches after the date. */
  lemma {:induction false} StampAfterMatches(s: string, i: nat, y: nat, st: Stamp)
    requires i <= y && y + 2 <= |s|
    ensures StampAfter(s, i, y) == Some(st) <==> TimeAfterDate(s, i, y, st)
  {
    if StampAfter(s, i, y) == Some(st) {
      StampAfterSound(s, i, y);
    }
    if TimeAfterDate(s, i, y, st) {
      StampAfterComplete(s, i, y, st);
    }
  }

  lemma {:induction false} StampAfterSound(s: string, i: nat, y: nat)
    requires i <= y && y + 2 <= |s| && StampAfter(s, i, y).Some?
    ensures TimeAfterDate(s, i, y, StampAfter(s, i, y).value)
  {
    var t := y + 2;
    var e := TimeEnd(s, t).value;
    TimeEndSound(s, t);
    assert StampAfter(s, i, y).value == Stamp(s[i..y], s[t..e], e + 3);
  }

  lemma {:induction false} StampAfterComplete(s: string, i: nat, y: nat, st: Stamp)
    requires i <= y && y + 2 <= |s| && TimeAfterDate(s, i, y, st)
    ensures StampAfter(s, i, y) == Some(st)
  {
    var t := y + 2;
    var e: nat :| t <= e <= |s| && TimeMatch(s, t, e) && st == Stamp(s[i..y], s[t..e], e + 3);
    TimeEndComplete(s, t, e);
    StampAfterOf(s, i, y, e);
  }

  lemma {:induction false} StampAfterOf(s: string, i: nat, y: nat, e: nat)
    requires i <= y && y + 2 <= |s| && TimeEnd(s, y + 2) == Some(e)
    ensures StampAfter(s, i, y) == Some(Stamp(s[i..y], s[y + 2..e], e + 3))
  {
  }

  /** The sender is found exactly where the pattern's `([^:]+): ` matches,
      and the header keeps the prefix's date and time. */
  lemma {:induction false} SenderAfterMatches(s: string, st: Stamp, h: Head)
    requires st.next <= |s|
    ensures SenderAfter(s, st) == Some(h) <==>
            st.date == h.date && st.time == h.time && SenderMatch(s, st.next, h.sender, h.bodyStart)
  {
    if SenderAfter(s, st) == Some(h) {
      SenderAfterSound(s, st);
    }
    if st.date == h.date && st.time == h.time && SenderMatch(s, st.next, h.sender, h.bodyStart) {
      SenderAfterComplete(s, st, h);
    }
  }

  lemma {:induction false} SenderAfterSound(s: string, st: Stamp)
    requires st.next <= |s| && SenderAfter(s, st).Some?
    ensures var h := SenderAfter(s, st).value;
            st.date == h.date && st.time == h.time && SenderMatch(s, st.next, h.sender, h.bodyStart)
  {
    var p := st.next;
    SpanCovers(s, p, NotColon);
    assert NoColon(s, p, p + Span(s, p, NotColon));
  }

  lemma {:induction false} SenderAfterComplete(s: string, st: Stamp, h: Head)
    requires st.next <= |s| && st.date == h.date && st.time == h.time
    requires SenderMatch(s, st.next, h.sender, h.bodyStart)
    ensures SenderAfter(s, st) == Some(h)
  {
    var p := st.next;
    var c: nat :| p < c && c + 1 < |s| && NoColon(s, p, c) &&
                  s[c] == ':' && s[c + 1] == ' ' && h.sender == s[p..c] && h.bodyStart == c + 2;
    SpanExact(s, p, c, NotColon);
  }

  /** HeaderAt finds exactly the headers the pattern matches, with the same
      date, time and sender captures and the same body start. */
  lemma {:induction false} HeaderAtMatches(s: string, i: nat, h: Head)
    requires i <= |s|
    ensures HeaderAt(s, i) == Some(h) <==> HeaderMatch(s, i, h)
  {
    if HeaderAt(s, i) == Some(h) {
      HeaderAtSound(s, i);
    }
    if HeaderMatch(s, i, h) {
      HeaderAtComplete(s, i, h);
    }
  }

  lemma {:induction false} HeaderAtSound(s: string, i: nat)
    requires i <= |s| && HeaderAt(s, i).Some?
    ensures HeaderMatch(s, i, HeaderAt(s, i).value)
  {
    var h := HeaderAt(s, i).value;
    var st := DateTimeAt(s, i).value;
    HeaderAtOf(s, i, st);
    SenderAfterMatches(s, st, h);
    DateTimeAtSound(s, i);
    assert Stamp(h.date, h.time, st.next) == st;
  }

  lemma {:induction false} HeaderAtComplete(s: string, i: nat, h: Head)
    requires i <= |s| && HeaderMatch(s, i, h)
    ensures HeaderAt(s, i) == Some(h)
  {
    var next: nat :| StampMatch(s, i, Stamp(h.date, h.time, next)) && SenderMatch(s, next, h.sender, h.bodyStart);
    HeaderAtFromParts(s, i, h, next);
  }

  lemma {:induction false} HeaderAtFromParts(s: string, i: nat, h: Head, next: nat)
    requires i <= |s| && StampMatch(s, i, Stamp(h.date, h.time, next)) && SenderMatch(s, next, h.sender, h.bodyStart)
    ensures HeaderAt(s, i) == Some(h)
  {
    var st := Stamp(h.date, h.time, next);
    DateTimeAtComplete(s, i, st);
    HeaderAtOf(s, i, st);
    SenderAfterMatches(s, st, h);
  }

  /** Once the prefix is found, the header is whatever the sender group makes of it. */
  lemma {:induction false} HeaderAtOf(s: string, i: nat, st: Stamp)
    requires i <= |s| && DateTimeAt(s, i) == Some(st)
    ensures HeaderAt(s, i) == SenderAfter(s, st)
  {
  }

  /** Where the lazy body may stop: the lookahead sees a date/time prefix
      (not a whole header), or `$` matches (the end, or just before a final
      line break). */
  predicate AtBoundary(s: string, b: nat)
    requires b <= |s|
  {
    DateTimeAt(s, b).Some? || b == |s| || (b == |s| - 1 && s[b] == '\n')
  }

  /** The lookahead `(?=P|$)` succeeds at `b` exactly when P matches there
      with some captures, or `$` does. */
  lemma {:induction false} AtBoundaryMatches(s: string, b: nat)
    requires b <= |s|
    ensures AtBoundary(s, b) <==>
            (exists st :: StampMatch(s, b, st)) || b == |s| || (b == |s| - 1 && s[b] == '\n')
  {
    if DateTimeAt(s, b).Some? {
      DateTimeAtMatches(s, b, DateTimeAt(s, b).value);
    }
    if st :| StampMatch(s, b, st) {
      DateTimeAtMatches(s, b, st);
    }
  }

  /** The first boundary at or after `b` (see NextBoundaryEarliest). */
  function NextBoundary(s: string, b: nat): (r: nat)
    requires b <= |s|
    ensures b <= r <= |s| && AtBoundary(s, r)
  {
    First(b, |s|, (x: nat) => x <= |s| && AtBoundary(s, x))
  }

  /** No position before NextBoundary(s, b) is a boundary: the lazy body
      ends at the earliest one. */
  lemma NextBoundaryEarliest(s: string, b: nat, x: nat)
    requires b <= x && b <= |s| && x < NextBoundary(s, b)
    ensures !AtBoundary(s, x)
  {
    FirstEarliest(b, |s|, (y: nat) => y <= |s| && AtBoundary(s, y), x);
  }

  /** A body cut where `$` matches just before a final line break is,
      once stripped, the body running to the end of the text. */
  lemma FinalNewlineBody(s: string, a: nat)
    requires a < |s| && s[|s| - 1] == '\n'
    ensures Strip(s[a..|s| - 1]) == Strip(s[a..])
  {
    var t := s[a..];
    assert t[..|t| - 1] == s[a..|s| - 1];
    StripFinalNewline(t);
  }

  /** The match attempted at position `i`: the message it yields (body
      stripped) and where the match ends. */
  function MatchAt(s: string, i: nat): (r: Option<(Message, nat)>)
    requires i <= |s|
    ensures r.Some? ==> i < r.value.1 <= |s| && Stripped(r.value.0.text)
  {
    match HeaderAt(s, i)
    case None => None
    case Some(h) =>
      var b := NextBoundary(s, h.bodyStart);
      Some((Message(h.date, h.time, h.sender, Strip(s[h.bodyStart..b])), b))
  }

  /** Every attempt that succeeds at a position up to `n` ends after that
      position and no later than `n`. */
  ghost predicate Advances(n: nat, attempt: nat -> Option<(Message, nat)>) {
    forall p: nat :: p <= n && attempt(p).Some? ==> p < attempt(p).value.1 <= n
  }

  /** `findall` over a text of length `n`, from position `i`: try a match at
      `i`; on success record it and resume where it ended, otherwise move one
      character on. Every record comes from a successful attempt at or after `i`. */
  function FindAll(n: nat, i: nat, attempt: nat -> Option<(Message, nat)>): (r: seq<Message>)
    requires i <= n && Advances(n, attempt)
    ensures forall k :: 0 <= k < |r| ==> FoundFrom(n, i, attempt, r[k])
    decreases n - i
  {
    if i == n then []
    else
      match attempt(i)
      case None =>
        var r := FindAll(n, i + 1, attempt);
        FoundEarlier(n, i, i + 1, attempt, r);
        r
      case Some((m, e)) =>
        var rest := FindAll(n, e, attempt);
        FoundEarlier(n, i, e, attempt, rest);
        var r := [m] + rest;
        assert attempt(i).Some? && attempt(i).value.0 == r[0];
        assert FoundFrom(n, i, attempt, r[0]);
        assert forall k :: 1 <= k < |r| ==> r[k] == rest[k - 1];
        r
  }

  /** Some attempt at a position from `i` up to `n` succeeds and records `x`. */
  ghost predicate FoundFrom(n: nat, i: nat, attempt: nat -> Option<(Message, nat)>, x: Message) {
    exists p: nat :: i <= p < n && attempt(p).Some? && attempt(p).value.0 == x
  }

  /** Records found by attempts from `j` on were found by attempts from any `i <= j` on. */
  lemma FoundEarlier(n: nat, i: nat, j: nat, attempt: nat -> Option<(Message, nat)>, r: seq<Message>)
    requires i <= j
    requires forall k :: 0 <= k < |r| ==> FoundFrom(n, j, attempt, r[k])
    ensures forall k :: 0 <= k < |r| ==> FoundFrom(n, i, attempt, r[k])
  {
    forall k | 0 <= k < |r|
      ensures FoundFrom(n, i, attempt, r[k])
    {
      var p: nat :| j <= p < n && attempt(p).Some? && attempt(p).value.0 == r[k];
      assert i <= p;
    }
  }

  /** Positions where no attempt succeeds contribute nothing. */
  lemma {:induction false} FindAllSkips(n: nat, i: nat, j: nat, attempt: nat -> Option<(Message, nat)>)
    requires i <= j <= n && Advances(n, attempt)
    requires forall x: nat :: i <= x < j ==> attempt(x).None?
    ensures FindAll(n, i, attempt) == FindAll(n, j, attempt)
    decreases j - i
  {
    if i < j {
      FindAllSkips(n, i + 1, j, attempt);
    }
  }

  /** The match attempt of the pattern at every position of `s`. */
  function Attempt(s: string): (f: nat -> Option<(Message, nat)>)
    ensures Advances(|s|, f)
    ensures forall p: nat :: p <= |s| ==> f(p) == MatchAt(s, p)
  {
    (p: nat) => if p <= |s| then MatchAt(s, p) else None
  }

  /** `re.findall` of the message pattern over `s` from position `i`; every
      body is stripped. */
  function Scan(s: string, i: nat): (r: seq<Message>)
    requires i <= |s|
    ensures forall k :: 0 <= k < |r| ==> Stripped(r[k].text)
  {
    FindAll(|s|, i, Attempt(s))
  }

  /** `extract_messages`: all matches, bodies stripped, then filtered. */
  function ExtractMessages(chat: string): (r: seq<Message>)
    ensures forall k :: 0 <= k < |r| ==> Stripped(r[k].text) && Keep(r[k])
  {
    FilterMessages(Scan(chat, 0))
  }

  /** Positions where no header starts contribute nothing: the scan from `i`
      is the scan from the next position that could start a header. */
  lemma ScanSkips(s: string, i: nat, j: nat)
    requires i <= j <= |s|
    requires forall x :: i <= x < j ==> HeaderAt(s, x).None?
    ensures Scan(s, i) == Scan(s, j)
  {
    var f := Attempt(s);
    assert forall x: nat :: i <= x < j ==> f(x).None?;
    FindAllSkips(|s|, i, j, f);
  }

  /** A header at `q`, with none between `i` and `q`, yields the next message:
      its body runs from the header to the earliest later boundary, and the
      scan resumes there. */
  lemma ScanNext(s: string, i: nat, q: nat)
    requires i <= q < |s| && HeaderAt(s, q).Some?
    requires forall x :: i <= x < q ==> HeaderAt(s, x).None?
    ensures var h := HeaderAt(s, q).value;
            var b := NextBoundary(s, h.bodyStart);
            Scan(s, i) == [Message(h.date, h.time, h.sender, Strip(s[h.bodyStart..b]))] + Scan(s, b)
  {
    ScanSkips(s, i, q);
  }

  /** A transcript with no header yields no messages. */
  lemma NoHeaderNoMessages(chat: string)
    requires forall x :: 0 <= x <= |chat| ==> HeaderAt(chat, x).None?
    ensures ExtractMessages(chat) == []
  {
    ScanSkips(chat, 0, |chat|);
  }

  /** Text before the first header is dropped: the extraction is that of the
      scan started at the first header. */
  lemma PrefixDropped(chat: string, q: nat)
    requires q <= |chat|
    requires forall x :: 0 <= x < q ==> HeaderAt(chat, x).None?
    ensures ExtractMessages(chat) == FilterMessages(Scan(chat, q))
  {
    ScanSkips(chat, 0, q);
  }
}
