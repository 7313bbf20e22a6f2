/** The promises of refresh requests. Request number g waits until a round answers it, or until the service
    gives up on it; both refresh services settle their waiters in this way. */
module RefreshWaiters {

  /** GivenUp: rejected without a round, by dispose or by a refresh loop that died. */
  datatype Outcome<+T> = Resolved(value: T) | Rejected | GivenUp

  /** The promise of request number generation was settled while round number round was the last one. */
  datatype Settlement<+T> = Settlement(generation: nat, round: nat, outcome: Outcome<T>)

  /** requested and waiters are the service's own; how many rounds have started, how many had when request
      g was made (asked[g - 1]) and what was settled is kept for the record. */
  datatype Book<+T> = Book(requested: nat, waiters: seq<nat>, rounds: nat, asked: seq<nat>, settled: seq<Settlement<T>>)

  /** The waiters a round of this generation does not answer. */
  function Newer(waiters: seq<nat>, generation: nat): seq<nat> {
    if waiters == [] then []
    else (if waiters[0] <= generation then [] else [waiters[0]]) + Newer(waiters[1..], generation)
  }

  function Answered<T>(waiters: seq<nat>, generation: nat, round: nat, outcome: Outcome<T>): seq<Settlement<T>> {
    if waiters == [] then []
    else (if waiters[0] <= generation then [Settlement(waiters[0], round, outcome)] else [])
         + Answered(waiters[1..], generation, round, outcome)
  }

  function Ask<T>(b: Book<T>): Book<T> {
    b.(requested := b.requested + 1, waiters := b.waiters + [b.requested + 1], asked := b.asked + [b.rounds])
  }

  function Begin<T>(b: Book<T>): Book<T> {
    b.(rounds := b.rounds + 1)
  }

  function Settle<T>(b: Book<T>, generation: nat, outcome: Outcome<T>): Book<T> {
    b.(waiters := Newer(b.waiters, generation),
       settled := b.settled + Answered(b.waiters, generation, b.rounds, outcome))
  }

  // ---------- A well kept book ----------

  predicate Ascending(waiters: seq<nat>) {
    forall i, j :: 0 <= i < j < |waiters| ==> waiters[i] < waiters[j]
  }

  ghost predicate IsSettled<T>(b: Book<T>, g: nat) {
    exists i :: 0 <= i < |b.settled| && b.settled[i].generation == g
  }

  /** A settlement by a round came from one that started after the request was made. */
  predicate FreshAnswer<T>(b: Book<T>, x: Settlement<T>) {
    && 1 <= x.generation <= |b.asked| && x.generation !in b.waiters
    && (x.outcome.GivenUp? || b.asked[x.generation - 1] < x.round <= b.rounds)
  }

  /** The requests are numbered 1 to requested; each waits or is settled, never both, and none is settled twice. */
  ghost predicate WellKept<T>(b: Book<T>) {
    && |b.asked| == b.requested && Ascending(b.waiters)
    && (forall w :: w in b.waiters ==> 1 <= w <= b.requested)
    && (forall i :: 0 <= i < |b.asked| ==> b.asked[i] <= b.rounds)
    && (forall i, j :: 0 <= i < j < |b.settled| ==> b.settled[i].generation != b.settled[j].generation)
    && (forall i {:trigger b.settled[i]} :: 0 <= i < |b.settled| ==> FreshAnswer(b, b.settled[i]))
    && (forall g {:trigger IsSettled(b, g)} :: 1 <= g <= b.requested ==> g in b.waiters || IsSettled(b, g))
  }

  lemma PutInFront(first: nat, rest: seq<nat>)
    requires Ascending(rest) && forall x :: x in rest ==> first < x
    ensures Ascending([first] + rest)
  {
    var all := [first] + rest;
    forall i, j | 0 <= i < j < |all|
      ensures all[i] < all[j]
    {
      assert all[j] == rest[j - 1] && rest[j - 1] in rest;
    }
  }

  lemma {:induction false} NewerIs(waiters: seq<nat>, g: nat)
    requires Ascending(waiters)
    ensures Ascending(Newer(waiters, g))
    ensures forall x :: x in Newer(waiters, g) <==> x in waiters && x > g
  {
    if waiters != [] {
      var first, rest := waiters[0], waiters[1..];
      NewerIs(rest, g);
      assert waiters == [first] + rest;
      assert forall x :: x in rest ==> first < x;
      if first <= g {
        assert Newer(waiters, g) == Newer(rest, g);
      } else {
        assert Newer(waiters, g) == [first] + Newer(rest, g);
        PutInFront(first, Newer(rest, g));
      }
    }
  }

  lemma {:induction false} AnsweredIs<T>(waiters: seq<nat>, g: nat, round: nat, outcome: Outcome<T>, k: nat)
    requires Ascending(waiters) && k < |Answered(waiters, g, round, outcome)|
    ensures var x := Answered(waiters, g, round, outcome)[k];
      x == Settlement(x.generation, round, outcome) && x.generation in waiters && x.generation <= g
    ensures forall j :: 0 <= j < k ==>
      Answered(waiters, g, round, outcome)[j].generation != Answered(waiters, g, round, outcome)[k].generation
  {
    var rest := Answered(waiters[1..], g, round, outcome);
    if waiters[0] > g {
      AnsweredIs(waiters[1..], g, round, outcome, k);
    } else if k > 0 {
      AnsweredIs(waiters[1..], g, round, outcome, k - 1);
      assert forall j :: 1 <= j < k ==> Answered(waiters, g, round, outcome)[j] == rest[j - 1];
      assert rest[k - 1].generation in waiters[1..];
    }
  }

  lemma {:induction false} SameOutcome<T>(waiters: seq<nat>, g: nat, round: nat, outcome: Outcome<T>, k: nat)
    requires k < |Answered(waiters, g, round, outcome)|
    ensures Answered(waiters, g, round, outcome)[k].outcome == outcome
  {
    if waiters[0] > g {
      SameOutcome(waiters[1..], g, round, outcome, k);
    } else if k > 0 {
      SameOutcome(waiters[1..], g, round, outcome, k - 1);
    }
  }

  lemma {:induction false} EachIsAnswered<T>(waiters: seq<nat>, g: nat, round: nat, outcome: Outcome<T>,
          w: nat) returns (k: nat)
    requires w in waiters && w <= g
    ensures k < |Answered(waiters, g, round, outcome)| && Answered(waiters, g, round, outcome)[k].generation == w
  {
    if waiters[0] == w {
      k := 0;
    } else {
      k := EachIsAnswered(waiters[1..], g, round, outcome, w);
      k := if waiters[0] <= g then k + 1 else k;
    }
  }

  lemma AskKeeps<T>(b: Book<T>)
    requires WellKept(b)
    ensures WellKept(Ask(b)) && forall w :: w in Ask(b).waiters ==> w in b.waiters || w == Ask(b).requested
  {
    var t := Ask(b);
    assert forall j :: 0 <= j < |b.waiters| ==> b.waiters[j] in b.waiters;
    forall i | 0 <= i < |t.settled|
      ensures FreshAnswer(t, t.settled[i])
    {
      assert FreshAnswer(b, b.settled[i]);
    }
    forall g | 1 <= g <= t.requested
      ensures g in t.waiters || IsSettled(t, g)
    {
      assert g <= b.requested ==> g in b.waiters || IsSettled(b, g);
      assert g == t.requested ==> t.waiters[|b.waiters|] == g;
      assert g in b.waiters ==> g in t.waiters;
    }
  }

  lemma BeginKeeps<T>(b: Book<T>)
    requires WellKept(b)
    ensures WellKept(Begin(b))
  {
    var t := Begin(b);
    forall i | 0 <= i < |t.settled|
      ensures FreshAnswer(t, t.settled[i])
    {
      assert FreshAnswer(b, b.settled[i]);
    }
    forall g | 1 <= g <= t.requested
      ensures g in t.waiters || IsSettled(t, g)
    {
      assert g in b.waiters || IsSettled(b, g);
    }
  }

  lemma SettledAreFresh<T>(b: Book<T>, g: nat, outcome: Outcome<T>, i: nat)
    requires WellKept(b) && g <= b.requested && i < |Settle(b, g, outcome).settled|
    requires outcome.GivenUp? || forall k :: 0 <= k < g ==> b.asked[k] < b.rounds
    ensures FreshAnswer(Settle(b, g, outcome), Settle(b, g, outcome).settled[i])
    ensures forall j :: 0 <= j < i ==>
      Settle(b, g, outcome).settled[j].generation != Settle(b, g, outcome).settled[i].generation
  {
    NewerIs(b.waiters, g);
    var t := Settle(b, g, outcome);
    if i < |b.settled| {
      assert FreshAnswer(b, b.settled[i]);
    } else {
      AnsweredIs(b.waiters, g, b.rounds, outcome, i - |b.settled|);
      assert t.settled[i] == Answered(b.waiters, g, b.rounds, outcome)[i - |b.settled|];
      forall j | 0 <= j < i
        ensures t.settled[j].generation != t.settled[i].generation
      {
        if j < |b.settled| {
          assert FreshAnswer(b, b.settled[j]);
        } else {
          assert t.settled[j] == Answered(b.waiters, g, b.rounds, outcome)[j - |b.settled|];
        }
      }
    }
  }

  lemma NoneIsLost<T>(b: Book<T>, g: nat, outcome: Outcome<T>, w: nat)
    requires WellKept(b) && 1 <= w <= b.requested
    ensures w in Settle(b, g, outcome).waiters || IsSettled(Settle(b, g, outcome), w)
  {
    NewerIs(b.waiters, g);
    var t := Settle(b, g, outcome);
    if IsSettled(b, w) {
      var i :| 0 <= i < |b.settled| && b.settled[i].generation == w;
      assert t.settled[i].generation == w;
    } else if w <= g {
      var k := EachIsAnswered(b.waiters, g, b.rounds, outcome, w);
      assert t.settled[|b.settled| + k].generation == w;
    }
  }

  /** Answering every waiter up to g in a round that started after all of them keeps the book. */
  lemma SettleKeeps<T>(b: Book<T>, g: nat, outcome: Outcome<T>)
    requires WellKept(b) && g <= b.requested
    requires outcome.GivenUp? || forall k :: 0 <= k < g ==> b.asked[k] < b.rounds
    ensures WellKept(Settle(b, g, outcome))
    ensures forall w :: w in Settle(b, g, outcome).waiters <==> w in b.waiters && w > g
    ensures g == b.requested || b.waiters == [] ==> Settle(b, g, outcome).waiters == []
  {
    NewerIs(b.waiters, g);
    var t := Settle(b, g, outcome);
    forall i | 0 <= i < |t.settled|
      ensures FreshAnswer(t, t.settled[i]) && forall j :: 0 <= j < i ==>
        t.settled[j].generation != t.settled[i].generation
    {
      SettledAreFresh(b, g, outcome, i);
    }
    forall w: nat | 1 <= w <= t.requested
      ensures w in t.waiters || IsSettled(t, w)
    {
      NoneIsLost(b, g, outcome, w);
    }
    if t.waiters != [] {
      assert t.waiters[0] in t.waiters;
    }
  }

  /** What changed between two books: the outcome went to exactly the waiters up to g, to each of them once, and
      they wait no more. */
  ghost predicate Told<T>(b: Book<T>, t: Book<T>, g: nat, outcome: Outcome<T>) {
    && b.settled <= t.settled && t.requested == b.requested && t.asked == b.asked
    && (forall w :: w in t.waiters <==> w in b.waiters && w > g)
    && (forall w {:trigger SettledFrom(t, |b.settled|, w)} :: w in b.waiters && w <= g ==> SettledFrom(t, |b.settled|, w))
    && (forall i :: |b.settled| <= i < |t.settled| ==>
          && t.settled[i] == Settlement(t.settled[i].generation, b.rounds, outcome)
          && t.settled[i].generation in b.waiters && t.settled[i].generation <= g)
  }

  ghost predicate SettledFrom<T>(b: Book<T>, from: nat, w: nat) {
    exists i :: from <= i < |b.settled| && b.settled[i].generation == w
  }

  lemma SettleTells<T>(b: Book<T>, g: nat, outcome: Outcome<T>)
    requires WellKept(b)
    ensures Told(b, Settle(b, g, outcome), g, outcome)
  {
    NewerIs(b.waiters, g);
    var t := Settle(b, g, outcome);
    forall w | w in b.waiters && w <= g
      ensures SettledFrom(t, |b.settled|, w)
    {
      var k := EachIsAnswered(b.waiters, g, b.rounds, outcome, w);
      assert t.settled[|b.settled| + k].generation == w;
    }
    forall i | |b.settled| <= i < |t.settled|
      ensures t.settled[i] == Settlement(t.settled[i].generation, b.rounds, outcome)
      ensures t.settled[i].generation in b.waiters && t.settled[i].generation <= g
    {
      AnsweredIs(b.waiters, g, b.rounds, outcome, i - |b.settled|);
    }
  }

  lemma ToldThenBegun<T>(b: Book<T>, t: Book<T>, g: nat, outcome: Outcome<T>)
    requires Told(b, t, g, outcome)
    ensures Told(b, Begin(t), g, outcome)
  {
    forall w | w in b.waiters && w <= g
      ensures SettledFrom(Begin(t), |b.settled|, w)
    {
      assert SettledFrom(t, |b.settled|, w);
    }
  }

  // ---------- The loop both services run over their waiters ----------

  lemma {:induction false} NewerSnoc(waiters: seq<nat>, g: nat, k: nat)
    requires k < |waiters|
    ensures Newer(waiters[..k + 1], g) == Newer(waiters[..k], g) + if waiters[k] <= g then [] else [waiters[k]]
  {
    if k > 0 {
      NewerSnoc(waiters[1..], g, k - 1);
      assert waiters[..k + 1][1..] == waiters[1..][..k] && waiters[..k][1..] == waiters[1..][..k - 1];
    }
  }

  lemma {:induction false} AnsweredSnoc<T>(waiters: seq<nat>, g: nat, round: nat, outcome: Outcome<T>, k: nat)
    requires k < |waiters|
    ensures Answered(waiters[..k + 1], g, round, outcome)
      == Answered(waiters[..k], g, round, outcome) + if waiters[k] <= g then [Settlement(waiters[k], round, outcome)] else []
  {
    if k > 0 {
      AnsweredSnoc(waiters[1..], g, round, outcome, k - 1);
      assert waiters[..k + 1][1..] == waiters[1..][..k] && waiters[..k][1..] == waiters[1..][..k - 1];
    }
  }

  /** resolveRefreshWaiters and rejectRefreshWaiters: who is left waiting, and who is told. */
  method SettleWaiters<T>(waiters: seq<nat>, generation: nat, ghost round: nat, outcome: Outcome<T>)
    returns (remaining: seq<nat>, told: seq<nat>, ghost settled: seq<Settlement<T>>)
    ensures remaining == Newer(waiters, generation)
    ensures settled == Answered(waiters, generation, round, outcome)
    ensures |told| == |settled| && forall i :: 0 <= i < |told| ==> settled[i] == Settlement(told[i], round, outcome)
  {
    remaining, told, settled := [], [], [];
    for i := 0 to |waiters|
      invariant remaining == Newer(waiters[..i], generation)
      invariant settled == Answered(waiters[..i], generation, round, outcome)
      invariant |told| == |settled| && forall k :: 0 <= k < |told| ==> settled[k] == Settlement(told[k], round, outcome)
    {
      NewerSnoc(waiters, generation, i);
      AnsweredSnoc(waiters, generation, round, outcome, i);
      if waiters[i] <= generation {
        told := told + [waiters[i]];
        settled := settled + [Settlement(waiters[i], round, outcome)];
      } else {
        remaining := remaining + [waiters[i]];
      }
    }
    assert waiters[..|waiters|] == waiters;
  }
}
