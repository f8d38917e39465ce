/** The ingestion worker: bounded retries with exponential delays (queue/worker.go, queue/backoff.go). */
module IngestionQueue {
  // ---- 64-bit arithmetic ----

  const TWO_63 := 0x8000_0000_0000_0000
  const TWO_64 := 0x1_0000_0000_0000_0000
  const SECOND := 1000000000

  /** The signed 64-bit number with the same low bits. */
  function Wrap(n: int): (w: int)
    ensures -TWO_63 <= w < TWO_63
  {
    var m := n % TWO_64;
    if m < TWO_63 then m else m - TWO_64
  }

  function Pow2(n: nat): (p: nat)
    ensures p > 0
  {
    if n == 0 then 1 else 2 * Pow2(n - 1)
  }

  /** 1 << k on a 64-bit int. */
  function ShiftedOne(k: nat): int {
    if k >= 64 then 0 else Wrap(Pow2(k))
  }

  /** backoffDelay in nanoseconds, of a 64-bit unsigned count. */
  function BackoffDelay(numDelivered: nat): int {
    var attempt := Wrap(numDelivered);
    var sec := ShiftedOne((if attempt < 1 then 1 else attempt) - 1);
    Wrap((if sec > 60 then 60 else sec) * SECOND)
  }

  /** The delay that is meant: doubling from one second, at most a minute. */
  function Doubling(n: nat): nat
    requires n > 0
  {
    if Pow2(n - 1) > 60 then 60 * SECOND else Pow2(n - 1) * SECOND
  }

  lemma {:induction false} Pow2Grows(m: nat, n: nat)
    requires m <= n
    ensures Pow2(m) <= Pow2(n)
  {
    if m < n {
      Pow2Grows(m, n - 1);
    }
  }

  lemma {:induction false} Pow2Adds(m: nat, n: nat)
    ensures Pow2(m + n) == Pow2(m) * Pow2(n)
  {
    if n > 0 {
      Pow2Adds(m, n - 1);
      assert Pow2(m + n) == 2 * (Pow2(m) * Pow2(n - 1));
    }
  }

  lemma {:induction false} Powers()
    ensures Pow2(6) == 64 && Pow2(62) == TWO_63 / 2 && Pow2(63) == TWO_63
  {
    Pow2Adds(3, 3);
    Pow2Adds(7, 7);
    Pow2Adds(15, 15);
    Pow2Adds(31, 31);
    assert Pow2(3) == 8;
    assert Pow2(7) == 128;
    assert Pow2(15) == 32768;
    assert Pow2(31) == 0x8000_0000;
  }

  lemma WrapSmall(n: int)
    requires -TWO_63 <= n < TWO_63
    ensures Wrap(n) == n
  {
  }

  lemma DelayInRange(n: nat)
    requires 1 <= n <= 63
    ensures BackoffDelay(n) == Doubling(n)
  {
    Powers();
    Pow2Grows(n - 1, 62);
    WrapSmall(n);
    WrapSmall(Pow2(n - 1));
    WrapSmall(Doubling(n));
  }

  lemma DelayBeyond(n: nat)
    requires 63 < n < TWO_64
    ensures BackoffDelay(n) == if n < TWO_63 then 0 else SECOND
  {
    Powers();
    if n == 64 {
      assert Wrap(Pow2(63)) == -TWO_63;
      assert -TWO_63 * SECOND == TWO_64 * -500000000;
    } else if n < TWO_63 {
      WrapSmall(n);
    } else {
      assert Wrap(n) == n - TWO_64;
      WrapSmall(SECOND);
    }
  }

  lemma DoublingInSeconds(n: nat)
    requires n >= 1
    ensures Doubling(n) ==
      if n <= 6 then [1000000000, 2000000000, 4000000000, 8000000000, 16000000000, 32000000000][n - 1]
      else 60000000000
  {
    Powers();
    if n > 6 {
      Pow2Grows(6, n - 1);
    } else {
      assert Pow2(1) == 2 && Pow2(2) == 4;
      assert Pow2(3) == 8;
      assert Pow2(4) == 16;
      assert Pow2(5) == 32;
    }
  }

  /** Exactly for counts up to 63 the delay is the doubling one; from 64 on the shift overflows and the delay
      is nothing, and for counts with the top bit set it is a second. */
  lemma DelayDoublesIff(n: nat)
    requires 1 <= n < TWO_64
    ensures BackoffDelay(n) == Doubling(n) <==> n <= 63
    ensures BackoffDelay(n) ==
      if n <= 6 then [1000000000, 2000000000, 4000000000, 8000000000, 16000000000, 32000000000][n - 1]
      else if n <= 63 then 60000000000
      else if n < 0x8000_0000_0000_0000 then 0
      else 1000000000
  {
    if n <= 63 {
      DelayInRange(n);
      DoublingInSeconds(n);
    } else {
      DelayBeyond(n);
      Powers();
      Pow2Grows(6, n - 1);
    }
  }

  lemma DelayGrows(m: nat, n: nat)
    requires 1 <= m <= n <= 63
    ensures BackoffDelay(m) <= BackoffDelay(n)
  {
    DelayInRange(m);
    DelayInRange(n);
    Pow2Grows(m - 1, n - 1);
  }

  // ---- one delivery ----

  datatype Subject = JikanSync | HiAnimeSync | Unknown

  datatype Payload = Unparsable | Job(malId: int)

  /** How a delivery goes: the handler succeeds or fails if it is reached, and the worker may crash before it
      answers, or its answer be lost. */
  datatype Delivery = Delivery(number: nat, succeeds: bool, answered: bool)

  datatype Answer = Acked | Nakked(delay: int)

  /** What the worker does: whether it starts the handler, whether it turns to the dead-letter queue, and what
      it answers. */
  datatype Reaction = Reaction(starts: bool, deadLetter: bool, answer: Answer)

  predicate Runnable(subject: Subject, payload: Payload) {
    !subject.Unknown? && payload.Job? && payload.malId > 0
  }

  predicate Exhausted(maxDeliver: int, number: nat) {
    maxDeliver > 0 && Wrap(number) > maxDeliver
  }

  function Reacted(maxDeliver: int, subject: Subject, payload: Payload, d: Delivery): Reaction {
    if Exhausted(maxDeliver, d.number) then Reaction(false, true, Acked)
    else if !Runnable(subject, payload) then Reaction(false, false, Acked)
    else if d.succeeds then Reaction(true, false, Acked)
    else Reaction(true, false, Nakked(BackoffDelay(d.number)))
  }

  /** handleMsg; each sync subject has its own branch, as in the worker. */
  method HandleMsg(maxDeliver: int, subject: Subject, payload: Payload, d: Delivery) returns (r: Reaction)
    ensures r == Reacted(maxDeliver, subject, payload, d)
    ensures 1 <= d.number < 0x8000_0000_0000_0000 ==>
      && (r.deadLetter <==> maxDeliver > 0 && d.number > maxDeliver)
      && (r.starts <==>
          && (maxDeliver <= 0 || d.number <= maxDeliver)
          && (subject.JikanSync? || subject.HiAnimeSync?) && payload.Job? && payload.malId > 0)
      && r.answer ==
         if !r.starts || d.succeeds then Acked
         else if d.number <= 6 then
           Nakked([1000000000, 2000000000, 4000000000, 8000000000, 16000000000, 32000000000][d.number - 1])
         else if d.number <= 63 then Nakked(60000000000)
         else Nakked(0)
  {
    if 1 <= d.number < TWO_63 {
      WrapSmall(d.number);
      DelayDoublesIff(d.number);
    }
    if maxDeliver > 0 && Wrap(d.number) > maxDeliver {
      return Reaction(false, true, Acked);
    }
    match subject {
      case JikanSync =>
        if payload.Unparsable? {
          return Reaction(false, false, Acked);
        }
        if payload.malId <= 0 {
          return Reaction(false, false, Acked);
        }
        if !d.succeeds {
          return Reaction(true, false, Nakked(BackoffDelay(d.number)));
        }
        return Reaction(true, false, Acked);
      case HiAnimeSync =>
        if payload.Unparsable? {
          return Reaction(false, false, Acked);
        }
        if payload.malId <= 0 {
          return Reaction(false, false, Acked);
        }
        if !d.succeeds {
          return Reaction(true, false, Nakked(BackoffDelay(d.number)));
        }
        return Reaction(true, false, Acked);
      case Unknown =>
        return Reaction(false, false, Acked);
    }
  }

  // ---- delivery histories ----

  /** The stream numbers the deliveries of a message upward from 1 and stops after an acknowledgement that
      reached it. */
  ghost predicate IsHistory(maxDeliver: int, subject: Subject, payload: Payload, ds: seq<Delivery>) {
    && (forall k :: 0 <= k < |ds| ==> 1 <= ds[k].number < TWO_63)
    && (forall j, k :: 0 <= j < k < |ds| ==> ds[j].number < ds[k].number)
    && (forall k :: 0 <= k < |ds| - 1 ==>
          !(ds[k].answered && Reacted(maxDeliver, subject, payload, ds[k]).answer.Acked?))
  }

  function Starts(maxDeliver: int, subject: Subject, payload: Payload, ds: seq<Delivery>): nat {
    if ds == [] then 0
    else
      var before := Starts(maxDeliver, subject, payload, ds[..|ds| - 1]);
      var r := Reacted(maxDeliver, subject, payload, ds[|ds| - 1]);
      if r.starts then before + 1 else before
  }

  lemma {:induction false} StartsBelowNumber(maxDeliver: int, subject: Subject, payload: Payload, ds: seq<Delivery>)
    requires IsHistory(maxDeliver, subject, payload, ds) && maxDeliver > 0
    ensures Starts(maxDeliver, subject, payload, ds) <= maxDeliver
    ensures ds != [] ==> Starts(maxDeliver, subject, payload, ds) <= ds[|ds| - 1].number
  {
    if ds != [] {
      var before, last := ds[..|ds| - 1], ds[|ds| - 1];
      StartsBelowNumber(maxDeliver, subject, payload, before);
      WrapSmall(last.number);
    }
  }

  /** However often a job is delivered, whatever crashes and whichever answers get lost, its handler starts at
      most MaxDeliver times. */
  lemma BoundedStarts(maxDeliver: int, subject: Subject, payload: Payload, ds: seq<Delivery>)
    requires IsHistory(maxDeliver, subject, payload, ds) && maxDeliver > 0
    ensures Starts(maxDeliver, subject, payload, ds) <= maxDeliver
  {
    StartsBelowNumber(maxDeliver, subject, payload, ds);
  }

  /** The job is off the queue: its last delivery was acknowledged and the acknowledgement arrived. */
  ghost predicate Left(maxDeliver: int, subject: Subject, payload: Payload, ds: seq<Delivery>) {
    ds != [] && ds[|ds| - 1].answered && Reacted(maxDeliver, subject, payload, ds[|ds| - 1]).answer.Acked?
  }

  /** Some delivery ran the handler and it succeeded. */
  ghost predicate Handled(maxDeliver: int, subject: Subject, payload: Payload, ds: seq<Delivery>) {
    exists k :: 0 <= k < |ds| && ds[k].succeeds && Reacted(maxDeliver, subject, payload, ds[k]).starts
  }

  /** Some delivery turned the job over to the dead-letter queue, as its number was past MaxDeliver. */
  ghost predicate DeadLettered(maxDeliver: int, subject: Subject, payload: Payload, ds: seq<Delivery>) {
    exists k :: 0 <= k < |ds| && ds[k].number > maxDeliver && Reacted(maxDeliver, subject, payload, ds[k]).deadLetter
  }

  /** This delivery is the end of the job if its answer arrives: there is nothing to run, the handler succeeds, or
      the tries are used up. */
  predicate Settles(maxDeliver: int, subject: Subject, payload: Payload, d: Delivery) {
    !Runnable(subject, payload) || d.succeeds || (maxDeliver > 0 && d.number > maxDeliver)
  }

  lemma SettlingIsAcked(maxDeliver: int, subject: Subject, payload: Payload, d: Delivery)
    requires 1 <= d.number < TWO_63
    ensures Reacted(maxDeliver, subject, payload, d).answer.Acked? <==> Settles(maxDeliver, subject, payload, d)
  {
    WrapSmall(d.number);
  }

  /** In every delivery history a job has left the queue exactly when some answered delivery settled it, and that
      one was the last: nothing is delivered afterwards. It then was unusable, handled or dead-lettered. */
  lemma LeftMeansDone(maxDeliver: int, subject: Subject, payload: Payload, ds: seq<Delivery>)
    requires IsHistory(maxDeliver, subject, payload, ds)
    ensures Left(maxDeliver, subject, payload, ds) <==>
      exists k :: 0 <= k < |ds| && ds[k].answered && Settles(maxDeliver, subject, payload, ds[k])
    ensures forall k ::
      0 <= k < |ds| && ds[k].answered && Settles(maxDeliver, subject, payload, ds[k]) ==> k == |ds| - 1
    ensures Left(maxDeliver, subject, payload, ds) ==>
      !Runnable(subject, payload) || Handled(maxDeliver, subject, payload, ds)
          || DeadLettered(maxDeliver, subject, payload, ds)
  {
    forall k | 0 <= k < |ds|
      ensures Reacted(maxDeliver, subject, payload, ds[k]).answer.Acked?
        <==> Settles(maxDeliver, subject, payload, ds[k])
    {
      SettlingIsAcked(maxDeliver, subject, payload, ds[k]);
    }
    if ds != [] {
      WrapSmall(ds[|ds| - 1].number);
    }
  }

  /** How many answers of a history arrived. */
  function Answered(ds: seq<Delivery>): nat {
    if ds == [] then 0 else Answered(ds[..|ds| - 1]) + if ds[|ds| - 1].answered then 1 else 0
  }

  lemma {:induction false} AnsweredBelowNumber(
      maxDeliver: int, subject: Subject, payload: Payload, ds: seq<Delivery>) returns (k: nat)
    requires IsHistory(maxDeliver, subject, payload, ds) && Answered(ds) > 0
    ensures k < |ds| && ds[k].answered && Answered(ds) <= ds[k].number
  {
    var before, last := ds[..|ds| - 1], ds[|ds| - 1];
    if last.answered && Answered(before) == 0 {
      k := |ds| - 1;
    } else {
      k := AnsweredBelowNumber(maxDeliver, subject, payload, before);
      if last.answered {
        k := |ds| - 1;
      }
    }
  }

  /** No job stays for ever: at most MaxDeliver + 1 answers arrive, and with more than MaxDeliver of them the job
      has left the queue, whatever crashes in between. */
  lemma LeavesInTime(maxDeliver: int, subject: Subject, payload: Payload, ds: seq<Delivery>)
    requires IsHistory(maxDeliver, subject, payload, ds) && maxDeliver > 0
    ensures Answered(ds) <= maxDeliver + 1
    ensures Answered(ds) > maxDeliver ==> Left(maxDeliver, subject, payload, ds)
  {
    LeftMeansDone(maxDeliver, subject, payload, ds);
    if ds != [] {
      UnsettledAreFew(maxDeliver, subject, payload, ds[..|ds| - 1]);
    }
    if !Left(maxDeliver, subject, payload, ds) {
      UnsettledAreFew(maxDeliver, subject, payload, ds);
    }
  }

  lemma UnsettledAreFew(maxDeliver: int, subject: Subject, payload: Payload, ds: seq<Delivery>)
    requires IsHistory(maxDeliver, subject, payload, ds) && maxDeliver > 0
    requires forall k :: 0 <= k < |ds| && ds[k].answered ==> !Settles(maxDeliver, subject, payload, ds[k])
    ensures Answered(ds) <= maxDeliver
  {
    if Answered(ds) > 0 {
      var k := AnsweredBelowNumber(maxDeliver, subject, payload, ds);
    }
  }

  /** What the worker makes of a failing delivery with this number. */
  function Failed(maxDeliver: int, number: nat): Reaction
    requires number > 0
  {
    if number <= maxDeliver then Reaction(true, false, Nakked(Doubling(number))) else Reaction(false, true, Acked)
  }

  /** A job whose handler keeps failing: in every history, with whatever crashes and lost answers, each
      delivery up to MaxDeliver starts the handler and asks for the doubling delay of its number, the first
      answered one past it ends the history in the dead-letter queue, and nothing else ends it. */
  lemma FailingJob(maxDeliver: int, subject: Subject, payload: Payload, ds: seq<Delivery>)
    requires IsHistory(maxDeliver, subject, payload, ds) && Runnable(subject, payload) && 0 < maxDeliver <= 63
    requires forall k :: 0 <= k < |ds| ==> !ds[k].succeeds
    ensures forall k :: 0 <= k < |ds| ==>
        Reacted(maxDeliver, subject, payload, ds[k]) == Failed(maxDeliver, ds[k].number)
    ensures forall k :: 0 <= k < |ds| && ds[k].number > maxDeliver && ds[k].answered ==> k == |ds| - 1
    ensures Left(maxDeliver, subject, payload, ds)
        <==> ds != [] && ds[|ds| - 1].answered && ds[|ds| - 1].number > maxDeliver
  {
    forall k | 0 <= k < |ds|
      ensures Reacted(maxDeliver, subject, payload, ds[k]) == Failed(maxDeliver, ds[k].number)
    {
      WrapSmall(ds[k].number);
      if ds[k].number <= maxDeliver {
        DelayInRange(ds[k].number);
      }
    }
  }

  /** When every delivery up to MaxDeliver is made and fails, the handler is started exactly MaxDeliver times. */
  lemma {:induction false} FailingJobIsTried(maxDeliver: int, subject: Subject, payload: Payload, ds: seq<Delivery>)
    requires IsHistory(maxDeliver, subject, payload, ds) && Runnable(subject, payload) && 0 < maxDeliver
    requires forall k :: 0 <= k < |ds| ==> ds[k].number == k + 1 && !ds[k].succeeds
    ensures Starts(maxDeliver, subject, payload, ds) == if |ds| <= maxDeliver then |ds| else maxDeliver
  {
    if ds != [] {
      FailingJobIsTried(maxDeliver, subject, payload, ds[..|ds| - 1]);
      WrapSmall(ds[|ds| - 1].number);
    }
  }

  /** The five delays of the default worker. */
  lemma FiveDelays()
    ensures forall n :: 1 <= n <= 5 ==> BackoffDelay(n) == Doubling(n)
    ensures Doubling(1) == SECOND && Doubling(2) == 2 * SECOND && Doubling(3) == 4 * SECOND
    ensures Doubling(4) == 8 * SECOND && Doubling(5) == 16 * SECOND
  {
    forall n | 1 <= n <= 5 ensures BackoffDelay(n) == Doubling(n) {
      DelayInRange(n);
    }
    assert Pow2(1) == 2 && Pow2(2) == 4;
    assert Pow2(3) == 8;
    assert Pow2(4) == 16;
  }

  /** Within MaxDeliver up to 63 every delay that is ever requested is the doubling one. */
  lemma ReachableDelays(maxDeliver: int, subject: Subject, payload: Payload, d: Delivery)
    requires 0 < maxDeliver <= 63 && 1 <= d.number < TWO_63
    requires Reacted(maxDeliver, subject, payload, d).answer.Nakked?
    ensures Reacted(maxDeliver, subject, payload, d).answer.delay == Doubling(d.number)
  {
    WrapSmall(d.number);
    DelayInRange(d.number);
  }

  /** consumeLoop over the deliveries of one job. */
  method Consume(maxDeliver: int, subject: Subject, payload: Payload, ds: seq<Delivery>)
    returns (reactions: seq<Reaction>, starts: nat)
    requires IsHistory(maxDeliver, subject, payload, ds)
    ensures |reactions| == |ds|
    ensures forall k :: 0 <= k < |ds| ==> reactions[k] == Reacted(maxDeliver, subject, payload, ds[k])
    ensures maxDeliver > 0 ==> starts <= maxDeliver
    ensures starts == Starts(maxDeliver, subject, payload, ds)
  {
    reactions, starts := [], 0;
    var i := 0;
    while i < |ds|
      invariant 0 <= i <= |ds| && |reactions| == i
      invariant forall k :: 0 <= k < i ==> reactions[k] == Reacted(maxDeliver, subject, payload, ds[k])
      invariant starts == Starts(maxDeliver, subject, payload, ds[..i])
    {
      assert ds[..i + 1][..i] == ds[..i];
      var r := HandleMsg(maxDeliver, subject, payload, ds[i]);
      reactions := reactions + [r];
      if r.starts {
        starts := starts + 1;
      }
      i := i + 1;
    }
    assert ds[..i] == ds;
    if maxDeliver > 0 {
      BoundedStarts(maxDeliver, subject, payload, ds);
    }
  }
}
