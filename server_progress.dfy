/**
 * Download progress on the server: the percentage the downloader prints
 * (`(\d+\.\d+)%`, clamped to [0, 100]) and the in-memory store that maps a
 * task id to its progress and status.
 */
module ServerProgress {
  import opened Wrappers
  import opened Maps
  import opened Js

  // ---------------------------------------------------------------------------
  // Exact decimal percentages
  // ---------------------------------------------------------------------------

  /**
   * A non-negative decimal `whole.fraction` as read from text: `whole` is the
   * value of the digits before the point and `fraction` the value of the
   * `places` digits after it, so the number is `Scaled(d) / 10^places`.
   */
  datatype Decimal = Decimal(whole: nat, fraction: nat, places: nat)

  /** The digits after the point are really `places` digits. */
  ghost predicate WellFormed(d: Decimal) {
    d.fraction < Pow10(d.places)
  }

  /** The number `d` stands for, multiplied by `10^places`. */
  function Scaled(d: Decimal): nat {
    d.whole * Pow10(d.places) + d.fraction
  }

  /** `d` denotes a number in [0, 100]. */
  ghost predicate InPercentRange(d: Decimal) {
    Scaled(d) <= 100 * Pow10(d.places)
  }

  const Zero := Decimal(0, 0, 0)
  const Hundred := Decimal(100, 0, 0)

  /** The comparison `v > 100`, on the two digit groups. */
  predicate Exceeds100(d: Decimal) {
    d.whole > 100 || (d.whole == 100 && d.fraction > 0)
  }

  /** Multiplying by the same natural number keeps the order. */
  lemma MulMonotone(a: nat, b: nat, p: nat)
    requires a <= b
    ensures a * p <= b * p
  {
    var c := b - a;
    assert b * p == a * p + c * p;
  }

  /** For `fraction < p`: the pair `(whole, fraction)` exceeds `(100, 0)` iff `whole * p + fraction > 100 * p`. */
  lemma ExceedsScaled(whole: nat, fraction: nat, p: nat)
    requires 1 <= p && fraction < p
    ensures (whole > 100 || (whole == 100 && fraction > 0)) <==> whole * p + fraction > 100 * p
  {
    if whole >= 101 {
      MulMonotone(101, whole, p);
      assert 101 * p == 100 * p + p;
    } else if whole <= 99 {
      MulMonotone(whole, 99, p);
      assert 100 * p == 99 * p + p;
    }
  }

  /** Comparing the digit groups is comparing the numbers. */
  lemma Exceeds100Exact(d: Decimal)
    ensures WellFormed(d) ==> (Exceeds100(d) <==> Scaled(d) > 100 * Pow10(d.places))
  {
    if WellFormed(d) {
      ExceedsScaled(d.whole, d.fraction, Pow10(d.places));
    }
  }

  /** `Math.min(100, Math.max(0, v))`; the lower bound never bites, as the pattern has no sign. */
  function Clamp(d: Decimal): (r: Decimal)
    ensures WellFormed(d) ==> WellFormed(r) && InPercentRange(r)
    ensures !Exceeds100(r)
    ensures r == d <==> !Exceeds100(d)
    ensures r != d ==> r == Hundred
  {
    Exceeds100Exact(d);
    if Exceeds100(d) then Hundred else d
  }

  // ---------------------------------------------------------------------------
  // The pattern (\d+\.\d+)%
  // ---------------------------------------------------------------------------

  /** `s[i..j]` is a non-empty run of digits. */
  predicate DigitRun(s: string, i: nat, j: nat) {
    i < j <= |s| && forall k :: i <= k < j ==> IsDigit(s[k])
  }

  /** A match of `(\d+\.\d+)%`: digits from `start` up to `point`, '.', digits up to `end`, '%'. */
  datatype PercentMatch = PercentMatch(start: nat, point: nat, end: nat)

  predicate MatchesAt(s: string, m: PercentMatch) {
    && DigitRun(s, m.start, m.point) && m.point < |s| && s[m.point] == '.'
    && DigitRun(s, m.point + 1, m.end) && m.end < |s| && s[m.end] == '%'
  }

  /** Some match of the pattern begins at index `i`. */
  ghost predicate MatchStartsAt(s: string, i: nat) {
    exists point, end :: MatchesAt(s, PercentMatch(i, point, end))
  }

  /** The end of the run of digits that begins at `i` (the first non-digit at or after `i`). */
  function DigitRunEnd(s: string, i: nat): (j: nat)
    requires i <= |s|
    ensures i <= j <= |s|
    ensures forall k :: i <= k < j ==> IsDigit(s[k])
    ensures j == |s| || !IsDigit(s[j])
    decreases |s| - i
  {
    if i < |s| && IsDigit(s[i]) then DigitRunEnd(s, i + 1) else i
  }

  /** Both digit runs of a match are maximal, so a match is determined by where it starts. */
  lemma MatchIsForced(s: string, m: PercentMatch)
    requires MatchesAt(s, m)
    ensures m.point == DigitRunEnd(s, m.start) && m.end == DigitRunEnd(s, m.point + 1)
  {
  }

  /** The engine's attempt at index `i`: the greedy runs leave it only one candidate. */
  function MatchAt(s: string, i: nat): (r: Option<PercentMatch>)
    requires i <= |s|
    ensures r.Some? ==> r.value.start == i && MatchesAt(s, r.value)
    ensures r.None? ==> !MatchStartsAt(s, i)
  {
    var p := DigitRunEnd(s, i);
    if p > i && p < |s| && s[p] == '.' then
      var e := DigitRunEnd(s, p + 1);
      if e > p + 1 && e < |s| && s[e] == '%' then Some(PercentMatch(i, p, e))
      else
        assert !MatchStartsAt(s, i) by {
          forall point, end | MatchesAt(s, PercentMatch(i, point, end)) ensures false {
            MatchIsForced(s, PercentMatch(i, point, end));
          }
        }
        None
    else
      assert !MatchStartsAt(s, i) by {
        forall point, end | MatchesAt(s, PercentMatch(i, point, end)) ensures false {
          MatchIsForced(s, PercentMatch(i, point, end));
        }
      }
      None
  }

  /** The leftmost match beginning at or after `from`: what `String.prototype.match` reports for this pattern. */
  function FirstMatchFrom(s: string, from: nat): (r: Option<PercentMatch>)
    requires from <= |s|
    ensures r.Some? ==> from <= r.value.start && MatchesAt(s, r.value)
    ensures r.Some? ==> forall i :: from <= i < r.value.start ==> !MatchStartsAt(s, i)
    ensures r.None? ==> forall i :: from <= i <= |s| ==> !MatchStartsAt(s, i)
    decreases |s| - from
  {
    match MatchAt(s, from)
    case Some(m) => Some(m)
    case None => if from == |s| then None else FirstMatchFrom(s, from + 1)
  }

  /** `parseFloat` of the captured `digits.digits`, kept exact. */
  function MatchedValue(s: string, m: PercentMatch): (d: Decimal)
    requires MatchesAt(s, m)
    ensures WellFormed(d)
  {
    DigitsValueBound(s[m.point + 1..m.end]);
    Decimal(DigitsValue(s[m.start..m.point]), DigitsValue(s[m.point + 1..m.end]), m.end - m.point - 1)
  }

  /**
   * The percentage a chunk of downloader output reports: the value of the
   * leftmost `digits.digits%` in it, or nothing when the chunk has none.
   */
  function ProgressIn(chunk: string): (r: Option<Decimal>)
    ensures r.Some? ==> WellFormed(r.value)
  {
    match FirstMatchFrom(chunk, 0)
    case None => None
    case Some(m) => Some(MatchedValue(chunk, m))
  }

  /**
   * `ProgressIn` finds a value exactly when the chunk holds the pattern, and
   * then it is the value of the leftmost match.
   */
  lemma ProgressInIsLeftmostMatch(chunk: string)
    ensures ProgressIn(chunk).None? <==> forall i :: 0 <= i <= |chunk| ==> !MatchStartsAt(chunk, i)
    ensures ProgressIn(chunk).Some? ==>
      exists m :: && MatchesAt(chunk, m) && ProgressIn(chunk).value == MatchedValue(chunk, m)
                  && forall i :: 0 <= i < m.start ==> !MatchStartsAt(chunk, i)
  {
    match FirstMatchFrom(chunk, 0)
    case None =>
    case Some(m) =>
      assert MatchStartsAt(chunk, m.start) by {
        assert MatchesAt(chunk, PercentMatch(m.start, m.point, m.end));
      }
  }

  // ---------------------------------------------------------------------------
  // The task store
  // ---------------------------------------------------------------------------

  /** `'idle'` is only ever reported for an unknown task, never stored. */
  datatype Status = Idle | Downloading | Completed

  datatype Task = Task(progress: Decimal, status: Status)

  /** The reply for a task id the store does not hold. */
  const IdleReply := Task(Zero, Idle)

  /** How the downloader process ended: its exit code, or no code when a signal ended it. */
  datatype ExitStatus = Exited(code: int) | Signalled

  /**
   * A stored task is under way or completed, at a progress in [0, 100]
   * (`Exceeds100Exact` reads `!Exceeds100` as a bound on the number); a completed one is at 100.
   */
  ghost predicate StoredTaskOk(t: Task) {
    && WellFormed(t.progress) && !Exceeds100(t.progress)
    && t.status != Idle
    && (t.status == Completed ==> t.progress == Hundred)
  }

  /** The two values the store writes besides clamped percentages are valid entries. */
  lemma FixedEntriesOk()
    ensures StoredTaskOk(Task(Zero, Downloading))
    ensures StoredTaskOk(Task(Hundred, Completed))
  {
  }

  /** The percentage each output chunk reports, if any. */
  function Reports(chunks: seq<string>): (r: seq<Option<Decimal>>)
    ensures |r| == |chunks|
    ensures forall i :: 0 <= i < |chunks| ==> r[i] == ProgressIn(chunks[i])
  {
    seq(|chunks|, i requires 0 <= i < |chunks| => ProgressIn(chunks[i]))
  }

  /** The entry of a task after the first `n` reports: the last percentage reported, clamped, else 0. */
  function Seen(reports: seq<Option<Decimal>>, n: nat): (t: Task)
    requires n <= |reports|
    ensures t.status == Downloading
  {
    if n == 0 then Task(Zero, Downloading)
    else match reports[n - 1]
      case Some(p) => Task(Clamp(p), Downloading)
      case None => Seen(reports, n - 1)
  }

  /** The entries polling shows after each of the first `n` reports. */
  function Polls(reports: seq<Option<Decimal>>, n: nat): (r: seq<Task>)
    requires n <= |reports|
    ensures |r| == n
  {
    if n == 0 then [] else Polls(reports, n - 1) + [Seen(reports, n)]
  }

  /** The poll after report `k` shows the entry after the first `k + 1` reports. */
  lemma {:induction false} PollsAt(reports: seq<Option<Decimal>>, n: nat)
    requires n <= |reports|
    ensures forall k :: 0 <= k < n ==> Polls(reports, n)[k] == Seen(reports, k + 1)
  {
    if n > 0 {
      PollsAt(reports, n - 1);
      assert forall k :: 0 <= k < n - 1 ==> Polls(reports, n)[k] == Polls(reports, n - 1)[k];
    }
  }

  /** The process-wide `progressStore` map, updated in place by the download handler. */
  class ProgressStore {
    var tasks: map<string, Task>

    ghost predicate Valid()
      reads this
    {
      forall id :: id in tasks ==> StoredTaskOk(tasks[id])
    }

    constructor ()
      ensures Valid() && tasks == map[]
    {
      tasks := map[];
    }

    /** `progressStore.get(taskId) || { progress: 0, status: 'idle' }`. */
    method Get(id: string) returns (t: Task)
      requires Valid()
      ensures id in tasks ==> t == tasks[id] && t.status != Idle
      ensures id !in tasks ==> t == IdleReply
      ensures WellFormed(t.progress) && !Exceeds100(t.progress)
    {
      if id in tasks {
        t := tasks[id];
      } else {
        t := IdleReply;
      }
    }

    /** A download starts: any earlier entry for the id is overwritten. */
    method Start(id: string)
      requires Valid()
      modifies this
      ensures Valid()
      ensures tasks == old(tasks)[id := Task(Zero, Downloading)]
    {
      FixedEntriesOk();
      tasks := tasks[id := Task(Zero, Downloading)];
    }

    /** What a chunk reported is stored: a percentage, clamped; a chunk without one changes nothing. */
    method Record(id: string, found: Option<Decimal>)
      requires Valid() && (found.Some? ==> WellFormed(found.value))
      modifies this
      ensures Valid()
      ensures found.None? ==> tasks == old(tasks)
      ensures found.Some? ==> tasks == old(tasks)[id := Task(Clamp(found.value), Downloading)]
    {
      if found.Some? {
        tasks := tasks[id := Task(Clamp(found.value), Downloading)];
      }
    }

    /** A chunk of stdout or stderr arrives: a reported percentage is stored, clamped; otherwise nothing changes. */
    method OnOutput(id: string, chunk: string)
      requires Valid()
      modifies this
      ensures Valid()
      ensures ProgressIn(chunk).None? ==> tasks == old(tasks)
      ensures ProgressIn(chunk).Some? ==> tasks == old(tasks)[id := Task(Clamp(ProgressIn(chunk).value), Downloading)]
    {
      Record(id, ProgressIn(chunk));
    }

    /** The process closes: success marks the task completed, anything else forgets it at once. */
    method OnClose(id: string, exit: ExitStatus)
      requires Valid()
      modifies this
      ensures Valid()
      ensures exit == Exited(0) ==> tasks == old(tasks)[id := Task(Hundred, Completed)]
      ensures exit != Exited(0) ==> tasks == old(tasks) - {id}
    {
      FixedEntriesOk();
      if exit == Exited(0) {
        tasks := tasks[id := Task(Hundred, Completed)];
      } else {
        tasks := tasks - {id};
      }
    }

    /** The reports of a download's output chunks arrive one after another, just after it started. */
    method Feed(id: string, reports: seq<Option<Decimal>>) returns (during: seq<Task>)
      requires Valid() && id in tasks && tasks[id] == Task(Zero, Downloading)
      requires forall k :: 0 <= k < |reports| && reports[k].Some? ==> WellFormed(reports[k].value)
      modifies this
      ensures Valid()
      ensures tasks == old(tasks)[id := Seen(reports, |reports|)]
      ensures during == Polls(reports, |reports|)
    {
      during := [];
      for k := 0 to |reports|
        invariant Valid()
        invariant tasks == old(tasks)[id := Seen(reports, k)]
        invariant during == Polls(reports, k)
      {
        assert Seen(reports, k + 1) == if reports[k].Some? then Task(Clamp(reports[k].value), Downloading) else Seen(reports, k);
        assert Polls(reports, k + 1) == Polls(reports, k) + [Seen(reports, k + 1)];
        UpdateTwice(old(tasks), id, Seen(reports, k), Seen(reports, k + 1));
        Record(id, reports[k]);
        var t := Get(id);
        during := during + [t];
      }
    }

    /** The grace delay after a success has run out: the entry is deleted, whatever it now holds. */
    method Expire(id: string)
      requires Valid()
      modifies this
      ensures Valid()
      ensures tasks == old(tasks) - {id}
    {
      tasks := tasks - {id};
    }
  }

  /** Whatever the chunks, the entry stays a valid one: a well-formed progress in [0, 100]. */
  lemma {:induction false} SeenInRange(chunks: seq<string>, n: nat)
    requires n <= |chunks|
    ensures WellFormed(Seen(Reports(chunks), n).progress) && !Exceeds100(Seen(Reports(chunks), n).progress)
  {
    if n > 0 {
      var found := Reports(chunks)[n - 1];
      assert found == ProgressIn(chunks[n - 1]);
      if found.None? {
        SeenInRange(chunks, n - 1);
      }
    }
  }

  /**
   * What a poll after chunk `k` shows: the chunk's own percentage, clamped,
   * when it reports one; otherwise what the previous poll showed, or 0 for
   * the first chunk.
   */
  lemma SeenStep(chunks: seq<string>, k: nat)
    requires k < |chunks|
    ensures ProgressIn(chunks[k]).Some? ==>
      Seen(Reports(chunks), k + 1).progress == Clamp(ProgressIn(chunks[k]).value)
    ensures ProgressIn(chunks[k]).None? && k == 0 ==> Seen(Reports(chunks), k + 1) == Task(Zero, Downloading)
    ensures ProgressIn(chunks[k]).None? && k > 0 ==> Seen(Reports(chunks), k + 1) == Seen(Reports(chunks), k)
  {
    assert Reports(chunks)[k] == ProgressIn(chunks[k]);
  }

  /**
   * What polling sees over the life of one download task: after each output
   * chunk, when the process closes, and once the grace delay has run out.
   */
  method DownloadTimeline(id: string, chunks: seq<string>, exit: ExitStatus)
    returns (during: seq<Task>, atClose: Task, afterGrace: Task)
    ensures |during| == |chunks|
    ensures forall k :: 0 <= k < |chunks| ==> during[k] == Seen(Reports(chunks), k + 1)
    ensures exit == Exited(0) ==> atClose == Task(Hundred, Completed)
    ensures exit != Exited(0) ==> atClose == IdleReply
    ensures afterGrace == IdleReply
  {
    var store := new ProgressStore();
    store.Start(id);
    during := store.Feed(id, Reports(chunks));
    PollsAt(Reports(chunks), |chunks|);
    store.OnClose(id, exit);
    atClose := store.Get(id);
    store.Expire(id);
    afterGrace := store.Get(id);
  }

  /**
   * What the polls during a download show: always downloading and in
   * [0, 100]; a chunk's percentage, clamped, as soon as it arrives; and for
   * a chunk without one, the previous poll's entry (0 before any).
   */
  lemma PollsShowProgress(chunks: seq<string>, during: seq<Task>)
    requires |during| == |chunks|
    requires forall k :: 0 <= k < |chunks| ==> during[k] == Seen(Reports(chunks), k + 1)
    ensures forall k :: 0 <= k < |chunks| ==>
      during[k].status == Downloading && WellFormed(during[k].progress) && !Exceeds100(during[k].progress)
    ensures forall k :: 0 <= k < |chunks| && ProgressIn(chunks[k]).Some? ==>
      during[k].progress == Clamp(ProgressIn(chunks[k]).value)
    ensures |chunks| > 0 && ProgressIn(chunks[0]).None? ==> during[0] == Task(Zero, Downloading)
    ensures forall k :: 0 < k < |chunks| && ProgressIn(chunks[k]).None? ==> during[k] == during[k - 1]
  {
    forall k | 0 <= k < |chunks|
      ensures WellFormed(during[k].progress) && !Exceeds100(during[k].progress)
      ensures ProgressIn(chunks[k]).Some? ==> during[k].progress == Clamp(ProgressIn(chunks[k]).value)
      ensures k == 0 && ProgressIn(chunks[k]).None? ==> during[k] == Task(Zero, Downloading)
      ensures k > 0 && ProgressIn(chunks[k]).None? ==> during[k] == during[k - 1]
    {
      SeenInRange(chunks, k + 1);
      SeenStep(chunks, k);
    }
  }
}
