/** The greedy conditions on a split determine it: the split the packer
    makes is the only split of a day's messages whose parts concatenate to
    the messages, whose checked prefixes fit and whose boundaries are forced
    by a message that did not fit. The chunks of a day are therefore fixed
    by those conditions alone. */
module Greedy {
  import opened Frames
  import opened Messages
  import opened Packing

  lemma ConcatLastPart(qs: seq<seq<Message>>)
    requires qs != []
    ensures Concat(qs) == Concat(qs[..|qs| - 1]) + Last(qs)
  {
  }

  /** No messages have one split: a single empty part. */
  lemma GreedyNone(count: string -> nat, budget: int, chatName: string, qs: seq<seq<Message>>)
    requires GreedySplit(count, budget, chatName, [], qs)
    ensures qs == [[]]
  {
    ConcatLastPart(qs);
    assert Last(qs) == [];
    assert |qs| == 1;
    assert qs == [qs[0]];
  }

  /** Removing the last message of a part keeps its checked prefixes fitting. */
  lemma AdmittedInit(count: string -> nat, budget: int, chatName: string, part: seq<Message>, from: nat)
    requires part != [] && Admitted(count, budget, chatName, part, from)
    ensures Admitted(count, budget, chatName, part[..|part| - 1], from)
  {
    var init := part[..|part| - 1];
    forall j | from <= j <= |init|
      ensures Fits(count, budget, chatName, init[..j])
    {
      assert init[..j] == part[..j];
    }
  }

  /** A last part holding one message, after other parts: dropping it
      leaves a greedy split of the earlier messages, and that message did
      not fit after the part before it. */
  lemma DropLastPart(count: string -> nat, budget: int, chatName: string, ms: seq<Message>, qs: seq<seq<Message>>)
    requires GreedySplit(count, budget, chatName, ms, qs)
    requires |qs| > 1 && |Last(qs)| == 1
    ensures ms != [] && Last(qs) == [Last(ms)]
    ensures GreedySplit(count, budget, chatName, ms[..|ms| - 1], qs[..|qs| - 1])
    ensures !Fits(count, budget, chatName, Last(qs[..|qs| - 1]) + [Last(ms)])
  {
    var n := |qs|;
    var init := qs[..n - 1];
    ConcatLastPart(qs);
    assert ms == Concat(init) + Last(qs);
    assert ms[..|ms| - 1] == Concat(init);
    forall i | 0 <= i < n - 1
      ensures Admitted(count, budget, chatName, init[i], Checked(i))
      ensures i > 0 ==> init[i] != []
    {
      assert init[i] == qs[i];
    }
    forall i | 0 <= i < n - 2
      ensures !Fits(count, budget, chatName, init[i] + [init[i + 1][0]])
    {
      assert init[i] == qs[i] && init[i + 1] == qs[i + 1];
    }
    assert !Fits(count, budget, chatName, qs[n - 2] + [qs[n - 1][0]]);
    assert Last(init) == qs[n - 2];
  }

  /** Any other last part: without its last message it leaves a greedy
      split of the earlier messages. */
  lemma ShrinkLastPart(count: string -> nat, budget: int, chatName: string, ms: seq<Message>, qs: seq<seq<Message>>)
    requires GreedySplit(count, budget, chatName, ms, qs)
    requires ms != [] && (|qs| == 1 || |Last(qs)| > 1)
    ensures Last(qs) != [] && Last(Last(qs)) == Last(ms)
    ensures GreedySplit(count, budget, chatName, ms[..|ms| - 1], qs[..|qs| - 1] + [Last(qs)[..|Last(qs)| - 1]])
  {
    var n := |qs|;
    var L := Last(qs);
    ShrinkConcat(ms, qs);
    var qs': seq<seq<Message>> := qs[..n - 1] + [L[..|L| - 1]];
    AdmittedInit(count, budget, chatName, L, Checked(n - 1));
    ShrinkAdmitted(count, budget, chatName, qs);
    ShrinkBoundaries(count, budget, chatName, qs);
    GreedyIntro(count, budget, chatName, ms[..|ms| - 1], qs');
  }

  /** A last part that is the only part, or holds two or more messages,
      was admitted whole by a budget check. */
  lemma LastPartFits(count: string -> nat, budget: int, chatName: string, qs: seq<seq<Message>>)
    requires qs != [] && Last(qs) != [] && (|qs| == 1 || |Last(qs)| > 1)
    requires Admitted(count, budget, chatName, Last(qs), Checked(|qs| - 1))
    ensures Fits(count, budget, chatName, Last(qs))
  {
    assert Last(qs)[..|Last(qs)|] == Last(qs);
  }

  /** The parts without the last message join to the messages without it. */
  lemma ShrinkConcat(ms: seq<Message>, qs: seq<seq<Message>>)
    requires qs != [] && Concat(qs) == ms && ms != [] && (|qs| == 1 || |Last(qs)| > 1)
    ensures Last(qs) != [] && Last(Last(qs)) == Last(ms)
    ensures Concat(qs[..|qs| - 1] + [Last(qs)[..|Last(qs)| - 1]]) == ms[..|ms| - 1]
  {
    var init := qs[..|qs| - 1];
    var L := Last(qs);
    ConcatLastPart(qs);
    if |qs| == 1 {
      assert init == [];
    }
    var L' := L[..|L| - 1];
    ConcatSnoc(init, L');
    assert ms[..|ms| - 1] == Concat(init) + L';
  }

  lemma ShrinkAdmitted(count: string -> nat, budget: int, chatName: string, qs: seq<seq<Message>>)
    requires qs != [] && Last(qs) != []
    requires forall i :: 0 <= i < |qs| ==> Admitted(count, budget, chatName, qs[i], Checked(i))
    requires forall i :: 0 < i < |qs| ==> qs[i] != []
    requires |qs| == 1 || |Last(qs)| > 1
    requires Admitted(count, budget, chatName, Last(qs)[..|Last(qs)| - 1], Checked(|qs| - 1))
    ensures var qs' := qs[..|qs| - 1] + [Last(qs)[..|Last(qs)| - 1]];
            forall i :: 0 <= i < |qs'| ==> Admitted(count, budget, chatName, qs'[i], Checked(i)) && (i > 0 ==> qs'[i] != [])
  {
    var n := |qs|;
    var qs': seq<seq<Message>> := qs[..n - 1] + [Last(qs)[..|Last(qs)| - 1]];
    forall i | 0 <= i < n
      ensures Admitted(count, budget, chatName, qs'[i], Checked(i)) && (i > 0 ==> qs'[i] != [])
    {
      if i < n - 1 {
        assert qs'[i] == qs[i];
      }
    }
  }

  lemma ShrinkBoundaries(count: string -> nat, budget: int, chatName: string, qs: seq<seq<Message>>)
    requires qs != [] && Last(qs) != [] && (|qs| == 1 || |Last(qs)| > 1)
    requires forall i :: 0 < i < |qs| ==> qs[i] != []
    requires forall i :: 0 <= i < |qs| - 1 ==> !Fits(count, budget, chatName, qs[i] + [qs[i + 1][0]])
    ensures var qs' := qs[..|qs| - 1] + [Last(qs)[..|Last(qs)| - 1]];
            forall i :: 0 <= i < |qs'| - 1 ==> !Fits(count, budget, chatName, qs'[i] + [qs'[i + 1][0]])
  {
    var n := |qs|;
    var L := Last(qs);
    var qs': seq<seq<Message>> := qs[..n - 1] + [L[..|L| - 1]];
    forall i | 0 <= i < n - 1
      ensures !Fits(count, budget, chatName, qs'[i] + [qs'[i + 1][0]])
    {
      assert qs'[i] == qs[i];
      if i < n - 2 {
        assert qs'[i + 1] == qs[i + 1];
      } else {
        assert qs'[i + 1][0] == L[0];
      }
    }
  }

  lemma GreedyIntro(count: string -> nat, budget: int, chatName: string, ms: seq<Message>, qs: seq<seq<Message>>)
    requires |qs| >= 1 && Concat(qs) == ms
    requires forall i :: 0 <= i < |qs| ==> Admitted(count, budget, chatName, qs[i], Checked(i)) && (i > 0 ==> qs[i] != [])
    requires forall i :: 0 <= i < |qs| - 1 ==> !Fits(count, budget, chatName, qs[i] + [qs[i + 1][0]])
    ensures GreedySplit(count, budget, chatName, ms, qs)
  {
  }

  /** The greedy condition on the open part is the loop's budget check. */
  lemma FitsIsCheck(count: string -> nat, budget: int, chatName: string, ms: seq<Message>, m: Message)
    ensures var p := Run(count, budget, chatName, ms);
            Fits(count, budget, chatName, Last(Parts(count, budget, chatName, ms)) + [m]) <==>
            count(p.current + Block(p.previous, m)) < budget
  {
    var p := Run(count, budget, chatName, ms);
    var ps := Parts(count, budget, chatName, ms);
    RunTracks(count, budget, chatName, ms);
    TracksPrevious(count, budget, chatName, ms, p, ps);
    BlockExtends(chatName, p, Last(ps), m);
  }

  /** A last message that fits extends the open part. */
  lemma PartsFits(count: string -> nat, budget: int, chatName: string, ms: seq<Message>)
    requires ms != []
    requires Fits(count, budget, chatName, Last(Parts(count, budget, chatName, ms[..|ms| - 1])) + [Last(ms)])
    ensures var ps := Parts(count, budget, chatName, ms[..|ms| - 1]);
            Parts(count, budget, chatName, ms) == ps[..|ps| - 1] + [Last(ps) + [Last(ms)]]
  {
    FitsIsCheck(count, budget, chatName, ms[..|ms| - 1], Last(ms));
  }

  /** A last message that does not fit opens a part of its own. */
  lemma PartsOverflow(count: string -> nat, budget: int, chatName: string, ms: seq<Message>)
    requires ms != []
    requires !Fits(count, budget, chatName, Last(Parts(count, budget, chatName, ms[..|ms| - 1])) + [Last(ms)])
    ensures Parts(count, budget, chatName, ms) == Parts(count, budget, chatName, ms[..|ms| - 1]) + [[Last(ms)]]
  {
    FitsIsCheck(count, budget, chatName, ms[..|ms| - 1], Last(ms));
  }

  /** The greedy split is unique: every split meeting the greedy conditions
      is the one the packer makes. */
  lemma {:induction false} GreedySplitUnique(count: string -> nat, budget: int, chatName: string,
                                             ms: seq<Message>, qs: seq<seq<Message>>)
    requires GreedySplit(count, budget, chatName, ms, qs)
    ensures qs == Parts(count, budget, chatName, ms)
    decreases |ms|
  {
    if ms == [] {
      GreedyNone(count, budget, chatName, qs);
    } else {
      var init := ms[..|ms| - 1];
      var n := |qs|;
      SplitLast(qs);
      if n > 1 && |Last(qs)| == 1 {
        DropLastPart(count, budget, chatName, ms, qs);
        GreedySplitUnique(count, budget, chatName, init, qs[..n - 1]);
        PartsOverflow(count, budget, chatName, ms);
      } else {
        ShrinkLastPart(count, budget, chatName, ms, qs);
        LastPartFits(count, budget, chatName, qs);
        var L := Last(qs);
        var qs': seq<seq<Message>> := qs[..n - 1] + [L[..|L| - 1]];
        GreedySplitUnique(count, budget, chatName, init, qs');
        SplitLast(L);
        assert Last(qs') + [Last(ms)] == L;
        PartsFits(count, budget, chatName, ms);
        assert qs'[..n - 1] == qs[..n - 1];
      }
    }
  }

  /** The chunks of a day render every split meeting the greedy conditions:
      the conditions alone fix what `format_chat` emits for a day. */
  lemma PackDayDetermined(count: string -> nat, budget: int, chatName: string, ms: seq<Message>, qs: seq<seq<Message>>)
    requires GreedySplit(count, budget, chatName, ms, qs)
    ensures Renders(chatName, ms, qs, PackDay(count, budget, chatName, ms))
  {
    GreedySplitUnique(count, budget, chatName, ms, qs);
    PackDayShape(count, budget, chatName, ms);
  }
}
