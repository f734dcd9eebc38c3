/** The SQL outbox and its polling loop (shared/shared/outbox_worker.py). The table lists its rows
    in id order; a row's position stands for its id. */
module SqlOutbox {
  import opened Division

  datatype RowStatus = Pending | Sent | Failed

  /** `published` counts how often the row's event has been handed to the broker. */
  datatype Row = Row(status: RowStatus, attempts: nat, published: nat)

  /** add_outbox_event */
  const NEW_ROW := Row(Pending, 0, 0)

  /** How many failures a pending row can survive, plus one. */
  function Tries(maxAttempts: int): nat
    ensures Tries(maxAttempts) >= 1 && Tries(maxAttempts) >= maxAttempts
  {
    if maxAttempts < 1 then 1 else maxAttempts
  }

  function PendingBefore(rows: seq<Row>, i: nat): nat
    requires i <= |rows|
  {
    if i == 0 then 0 else PendingBefore(rows, i - 1) + if rows[i - 1].status == Pending then 1 else 0
  }

  /** The row is among the first batchSize pending ones. */
  predicate Claimed(rows: seq<Row>, i: nat, batchSize: nat) {
    i < |rows| && rows[i].status == Pending && PendingBefore(rows, i) < batchSize
  }

  function MarkSent(row: Row): Row {
    row.(status := Sent)
  }

  function MarkFailure(row: Row, attempts: nat, maxAttempts: int): Row {
    row.(status := if attempts >= maxAttempts then Failed else Pending, attempts := attempts)
  }

  /** One row's turn in a poll: publish, then mark. */
  function Attempt(row: Row, published: bool, maxAttempts: int): Row {
    if published then MarkSent(row.(published := row.published + 1)) else MarkFailure(row, row.attempts + 1, maxAttempts)
  }

  /** A committed poll: every claimed row has its turn, no other row changes. `up` is the set of
      rows whose publish would succeed. */
  function Poll(rows: seq<Row>, up: set<nat>, batchSize: nat, maxAttempts: int): (polled: seq<Row>)
    ensures |polled| == |rows|
  {
    seq(|rows|, i requires 0 <= i < |rows| =>
      if Claimed(rows, i, batchSize) then Attempt(rows[i], i in up, maxAttempts) else rows[i])
  }

  /** A poll whose transaction is rolled back after `reached` rows had their turn: what was
      published stays published, every mark is undone. */
  function RolledBackPoll(rows: seq<Row>, up: set<nat>, reached: nat, batchSize: nat): (polled: seq<Row>)
    ensures |polled| == |rows|
  {
    seq(|rows|, i requires 0 <= i < |rows| =>
      if Claimed(rows, i, batchSize) && PendingBefore(rows, i) < reached && i in up
      then rows[i].(published := rows[i].published + 1) else rows[i])
  }

  // ---- The worker ----

  /** SELECT ... WHERE status = 'PENDING' ORDER BY id LIMIT batchSize, over the first n rows. */
  function ClaimBatch(rows: seq<Row>, n: nat, batchSize: nat): (batch: seq<nat>)
    requires n <= |rows|
    ensures |batch| <= batchSize && |batch| <= PendingBefore(rows, n)
    ensures |batch| < batchSize ==> |batch| == PendingBefore(rows, n)
    ensures forall i: nat :: i in batch <==> i < n && Claimed(rows, i, batchSize)
    ensures forall k :: 0 <= k < |batch| ==> batch[k] < n && PendingBefore(rows, batch[k]) == k
  {
    if n == 0 then []
    else
      var batch := ClaimBatch(rows, n - 1, batchSize);
      if rows[n - 1].status == Pending && |batch| < batchSize then batch + [n - 1] else batch
  }

  class OutboxTable {
    var rows: seq<Row>

    constructor ()
      ensures rows == []
    {
      rows := [];
    }

    method AddOutboxEvent()
      modifies this
      ensures rows == old(rows) + [NEW_ROW]
    {
      rows := rows + [NEW_ROW];
    }

    /** One committed turn of run_outbox_loop. */
    method PollOnce(up: set<nat>, batchSize: nat, maxAttempts: int)
      modifies this
      ensures rows == Poll(old(rows), up, batchSize, maxAttempts)
    {
      var batch := ClaimBatch(rows, |rows|, batchSize);
      for k := 0 to |batch|
        invariant |rows| == |old(rows)|
        invariant forall i :: 0 <= i < |rows| ==>
                    rows[i] == if Claimed(old(rows), i, batchSize) && PendingBefore(old(rows), i) < k
                               then Attempt(old(rows)[i], i in up, maxAttempts) else old(rows)[i]
      {
        var id := batch[k];
        var row := rows[id];
        if id in up {
          rows := rows[id := MarkSent(row.(published := row.published + 1))];
        } else {
          rows := rows[id := MarkFailure(row, row.attempts + 1, maxAttempts)];
        }
        OnlyOneAtRank(old(rows), id, k);
      }
      forall i: nat | Claimed(old(rows), i, batchSize)
        ensures PendingBefore(old(rows), i) < |batch|
      {
        assert i in batch;
      }
    }
  }

  lemma {:induction false} RanksIncrease(rows: seq<Row>, i: nat, j: nat)
    requires i < j <= |rows| && rows[i].status == Pending
    ensures PendingBefore(rows, i) < PendingBefore(rows, j)
    decreases j
  {
    if i < j - 1 {
      RanksIncrease(rows, i, j - 1);
    }
  }

  /** Pending rows have distinct ranks. */
  lemma {:induction false} OnlyOneAtRank(rows: seq<Row>, i: nat, k: nat)
    requires i < |rows| && rows[i].status == Pending && PendingBefore(rows, i) == k
    ensures forall j: nat :: j < |rows| && rows[j].status == Pending && PendingBefore(rows, j) == k ==> j == i
  {
    forall j: nat | j < |rows| && rows[j].status == Pending && PendingBefore(rows, j) == k
      ensures j == i
    {
      if j < i {
        RanksIncrease(rows, j, i);
      } else if i < j {
        RanksIncrease(rows, i, j);
      }
    }
  }

  // ---- Status and publish counts ----

  ghost predicate AccurateRow(row: Row, maxAttempts: int) {
    match row.status
    case Pending => row.published == 0 && row.attempts < Tries(maxAttempts)
    case Sent => row.published == 1 && row.attempts < Tries(maxAttempts)
    case Failed => row.published == 0 && row.attempts >= maxAttempts
  }

  ghost predicate Accurate(rows: seq<Row>, maxAttempts: int) {
    forall i :: 0 <= i < |rows| ==> AccurateRow(rows[i], maxAttempts)
  }

  /** What one round does: some rows are added, then a poll runs. */
  datatype Round = Committed(added: nat, up: set<nat>) | RolledBack(added: nat, up: set<nat>, reached: nat)

  function WithNew(rows: seq<Row>, added: nat): seq<Row> {
    rows + seq(added, _ => NEW_ROW)
  }

  function After(rows: seq<Row>, rounds: seq<Round>, batchSize: nat, maxAttempts: int): seq<Row>
    decreases |rounds|
  {
    if rounds == [] then rows
    else
      var grown := WithNew(rows, rounds[0].added);
      var polled := match rounds[0]
                    case Committed(_, up) => Poll(grown, up, batchSize, maxAttempts)
                    case RolledBack(_, up, reached) => RolledBackPoll(grown, up, reached, batchSize);
      After(polled, rounds[1..], batchSize, maxAttempts)
  }

  ghost predicate AllCommitted(rounds: seq<Round>) {
    forall k :: 0 <= k < |rounds| ==> rounds[k].Committed?
  }

  /** Without rollbacks a SENT row was published exactly once, a FAILED row never, and a PENDING
      row never and still has attempts left. */
  lemma {:induction false} CommittedRoundsStayAccurate(rows: seq<Row>, rounds: seq<Round>, batchSize: nat, maxAttempts: int)
    requires Accurate(rows, maxAttempts) && AllCommitted(rounds)
    ensures Accurate(After(rows, rounds, batchSize, maxAttempts), maxAttempts)
    decreases |rounds|
  {
    if rounds != [] {
      var grown := WithNew(rows, rounds[0].added);
      CommittedRoundsStayAccurate(Poll(grown, rounds[0].up, batchSize, maxAttempts), rounds[1..], batchSize, maxAttempts);
    }
  }

  // ---- Attempts are failures ----

  /** The state after one round. */
  function AfterRound(rows: seq<Row>, round: Round, batchSize: nat, maxAttempts: int): seq<Row> {
    After(rows, [round], batchSize, maxAttempts)
  }

  /** How often row i was claimed by a committed poll and its publish failed. */
  function FailuresOf(rows: seq<Row>, rounds: seq<Round>, i: nat, batchSize: nat, maxAttempts: int): nat
    decreases |rounds|
  {
    if rounds == [] then 0
    else
      (if rounds[0].Committed? && Claimed(WithNew(rows, rounds[0].added), i, batchSize) && i !in rounds[0].up then 1 else 0)
      + FailuresOf(AfterRound(rows, rounds[0], batchSize, maxAttempts), rounds[1..], i, batchSize, maxAttempts)
  }

  /** How often row i was claimed by a committed poll and its publish succeeded. */
  function SuccessesOf(rows: seq<Row>, rounds: seq<Round>, i: nat, batchSize: nat, maxAttempts: int): nat
    decreases |rounds|
  {
    if rounds == [] then 0
    else
      (if rounds[0].Committed? && Claimed(WithNew(rows, rounds[0].added), i, batchSize) && i in rounds[0].up then 1 else 0)
      + SuccessesOf(AfterRound(rows, rounds[0], batchSize, maxAttempts), rounds[1..], i, batchSize, maxAttempts)
  }

  /** The row records that many failures and successes, and is settled by the last one that may happen. */
  ghost predicate Records(row: Row, failures: nat, successes: nat, maxAttempts: int) {
    && row.attempts == failures <= Tries(maxAttempts) && successes <= 1
    && (row.status == Failed <==> failures == Tries(maxAttempts))
    && (row.status == Sent <==> successes == 1)
  }

  /** Row i records them, or has not been added yet and there are none. */
  ghost predicate RecordsAt(rows: seq<Row>, i: nat, failures: nat, successes: nat, maxAttempts: int) {
    if i < |rows| then Records(rows[i], failures, successes, maxAttempts) else failures == successes == 0
  }

  lemma AfterRoundIsPoll(rows: seq<Row>, round: Round, batchSize: nat, maxAttempts: int)
    ensures var grown := WithNew(rows, round.added);
            AfterRound(rows, round, batchSize, maxAttempts)
            == match round
               case Committed(_, up) => Poll(grown, up, batchSize, maxAttempts)
               case RolledBack(_, up, reached) => RolledBackPoll(grown, up, reached, batchSize)
  {
    var grown := WithNew(rows, round.added);
    assert [round][1..] == [];
    match round
    case Committed(_, up) =>
      assert After(Poll(grown, up, batchSize, maxAttempts), [], batchSize, maxAttempts) == Poll(grown, up, batchSize, maxAttempts);
    case RolledBack(_, up, reached) =>
      assert After(RolledBackPoll(grown, up, reached, batchSize), [], batchSize, maxAttempts)
          == RolledBackPoll(grown, up, reached, batchSize);
  }

  lemma RoundRecords(rows: seq<Row>, round: Round, i: nat, failures: nat, successes: nat, batchSize: nat, maxAttempts: int)
    requires RecordsAt(rows, i, failures, successes, maxAttempts)
    ensures var turn := round.Committed? && Claimed(WithNew(rows, round.added), i, batchSize);
            RecordsAt(AfterRound(rows, round, batchSize, maxAttempts), i,
                      failures + (if turn && i !in round.up then 1 else 0),
                      successes + (if turn && i in round.up then 1 else 0), maxAttempts)
  {
    AfterRoundIsPoll(rows, round, batchSize, maxAttempts);
  }

  lemma {:induction false} RoundsRecord(rows: seq<Row>, rounds: seq<Round>, i: nat, failures: nat, successes: nat,
                                        batchSize: nat, maxAttempts: int)
    requires RecordsAt(rows, i, failures, successes, maxAttempts)
    ensures RecordsAt(After(rows, rounds, batchSize, maxAttempts), i,
                      failures + FailuresOf(rows, rounds, i, batchSize, maxAttempts),
                      successes + SuccessesOf(rows, rounds, i, batchSize, maxAttempts), maxAttempts)
    decreases |rounds|
  {
    if rounds != [] {
      var round := rounds[0];
      var turn := round.Committed? && Claimed(WithNew(rows, round.added), i, batchSize);
      AfterRoundIsPoll(rows, round, batchSize, maxAttempts);
      RoundRecords(rows, round, i, failures, successes, batchSize, maxAttempts);
      RoundsRecord(AfterRound(rows, round, batchSize, maxAttempts), rounds[1..], i,
                   failures + (if turn && i !in round.up then 1 else 0),
                   successes + (if turn && i in round.up then 1 else 0), batchSize, maxAttempts);
    }
  }

  /** Over any rounds from an empty table, rollbacks included, a row's attempts are its failed publishes
      in committed polls. It is FAILED exactly when these have reached max_attempts (at least one),
      SENT exactly when a committed poll published it, and PENDING, to be tried again, otherwise. */
  lemma {:induction false} AttemptsAreFailures(rounds: seq<Round>, i: nat, batchSize: nat, maxAttempts: int)
    requires i < |After([], rounds, batchSize, maxAttempts)|
    ensures var row := After([], rounds, batchSize, maxAttempts)[i];
            var failures, successes := FailuresOf([], rounds, i, batchSize, maxAttempts), SuccessesOf([], rounds, i, batchSize, maxAttempts);
            var most := if maxAttempts < 1 then 1 else maxAttempts;
            && row.attempts == failures <= most
            && (row.status == Failed <==> failures == most)
            && (row.status == Sent <==> successes == 1)
            && (row.status == Pending <==> failures < most && successes == 0)
  {
    RoundsRecord([], rounds, i, 0, 0, batchSize, maxAttempts);
  }

  // ---- Rollbacks ----

  /** How often the event of row i was handed to the broker, by committed polls and by polls that were
      rolled back after they had reached it. */
  function PublishesOf(rows: seq<Row>, rounds: seq<Round>, i: nat, batchSize: nat, maxAttempts: int): nat
    decreases |rounds|
  {
    if rounds == [] then 0
    else
      var grown := WithNew(rows, rounds[0].added);
      (if Claimed(grown, i, batchSize) && i in rounds[0].up
          && (rounds[0].RolledBack? ==> PendingBefore(grown, i) < rounds[0].reached) then 1 else 0)
      + PublishesOf(AfterRound(rows, rounds[0], batchSize, maxAttempts), rounds[1..], i, batchSize, maxAttempts)
  }

  /** Every publish counts, though a rollback undoes its mark. */
  lemma {:induction false} EveryPublishCounts(rows: seq<Row>, rounds: seq<Round>, i: nat, batchSize: nat, maxAttempts: int)
    ensures var after := After(rows, rounds, batchSize, maxAttempts);
            if i < |after|
            then after[i].published == (if i < |rows| then rows[i].published else 0)
                                       + PublishesOf(rows, rounds, i, batchSize, maxAttempts)
            else PublishesOf(rows, rounds, i, batchSize, maxAttempts) == 0
    decreases |rounds|
  {
    if rounds != [] {
      AfterRoundIsPoll(rows, rounds[0], batchSize, maxAttempts);
      AfterGrows(AfterRound(rows, rounds[0], batchSize, maxAttempts), rounds[1..], batchSize, maxAttempts);
      EveryPublishCounts(AfterRound(rows, rounds[0], batchSize, maxAttempts), rounds[1..], i, batchSize, maxAttempts);
    }
  }

  ghost predicate SentMeansPublished(rows: seq<Row>, maxAttempts: int) {
    forall i :: 0 <= i < |rows| ==>
      && (rows[i].status == Sent ==> rows[i].published >= 1)
      && (rows[i].status == Pending ==> rows[i].attempts < Tries(maxAttempts))
  }

  lemma RoundKeepsSentMeansPublished(rows: seq<Row>, up: set<nat>, reached: nat, batchSize: nat, maxAttempts: int)
    requires SentMeansPublished(rows, maxAttempts)
    ensures SentMeansPublished(Poll(rows, up, batchSize, maxAttempts), maxAttempts)
    ensures SentMeansPublished(RolledBackPoll(rows, up, reached, batchSize), maxAttempts)
  {
  }

  /** With any rollbacks, SENT still implies published at least once, and PENDING implies attempts left. */
  lemma {:induction false} SentWasPublished(rows: seq<Row>, rounds: seq<Round>, batchSize: nat, maxAttempts: int)
    requires SentMeansPublished(rows, maxAttempts)
    ensures SentMeansPublished(After(rows, rounds, batchSize, maxAttempts), maxAttempts)
    decreases |rounds|
  {
    if rounds != [] {
      var grown := WithNew(rows, rounds[0].added);
      assert SentMeansPublished(grown, maxAttempts);
      match rounds[0]
      case Committed(_, up) =>
        RoundKeepsSentMeansPublished(grown, up, 0, batchSize, maxAttempts);
        SentWasPublished(Poll(grown, up, batchSize, maxAttempts), rounds[1..], batchSize, maxAttempts);
      case RolledBack(_, up, reached) =>
        RoundKeepsSentMeansPublished(grown, up, reached, batchSize, maxAttempts);
        SentWasPublished(RolledBackPoll(grown, up, reached, batchSize), rounds[1..], batchSize, maxAttempts);
    }
  }

  /** A row that has left PENDING never changes again, rollbacks or not. */
  lemma {:induction false} SettledRowsNeverChange(rows: seq<Row>, rounds: seq<Round>, batchSize: nat, maxAttempts: int, i: nat)
    requires i < |rows| && rows[i].status != Pending
    ensures i < |After(rows, rounds, batchSize, maxAttempts)| && After(rows, rounds, batchSize, maxAttempts)[i] == rows[i]
    decreases |rounds|
  {
    if rounds != [] {
      var grown := WithNew(rows, rounds[0].added);
      match rounds[0]
      case Committed(_, up) =>
        SettledRowsNeverChange(Poll(grown, up, batchSize, maxAttempts), rounds[1..], batchSize, maxAttempts, i);
      case RolledBack(_, up, reached) =>
        SettledRowsNeverChange(RolledBackPoll(grown, up, reached, batchSize), rounds[1..], batchSize, maxAttempts, i);
    }
  }

  // ---- How long a row can stay pending ----

  lemma {:induction false} PendingBeforeShrinks(rows: seq<Row>, rows': seq<Row>, i: nat)
    requires i <= |rows| && i <= |rows'|
    requires forall p: nat :: p < i && rows'[p].status == Pending ==> rows[p].status == Pending
    ensures PendingBefore(rows', i) <= PendingBefore(rows, i)
  {
    if i > 0 {
      PendingBeforeShrinks(rows, rows', i - 1);
    }
  }

  /** One committed round, seen from row i: rows are only added behind it, and no row ahead of it
      becomes pending. */
  lemma {:induction false} RoundShrinks(rows: seq<Row>, round: Round, batchSize: nat, maxAttempts: int, i: nat)
    requires i <= |rows| && round.Committed?
    ensures var grown := WithNew(rows, round.added);
            && PendingBefore(grown, i) == PendingBefore(rows, i)
            && PendingBefore(Poll(grown, round.up, batchSize, maxAttempts), i) <= PendingBefore(rows, i)
  {
    var grown := WithNew(rows, round.added);
    PendingBeforeShrinks(rows, grown, i);
    PendingBeforeShrinks(grown, rows, i);
    PendingBeforeShrinks(grown, Poll(grown, round.up, batchSize, maxAttempts), i);
  }

  ghost predicate SettledAfter(rows: seq<Row>, rounds: seq<Round>, batchSize: nat, maxAttempts: int, i: nat) {
    var after := After(rows, rounds, batchSize, maxAttempts);
    i < |after| && after[i].status != Pending
  }

  /** A row among the first batchSize pending ones is tried in every round, so it is settled once
      the remaining tries are used up. */
  lemma {:induction false} FrontRowSettles(rows: seq<Row>, rounds: seq<Round>, batchSize: nat, maxAttempts: int, i: nat)
    requires Accurate(rows, maxAttempts) && AllCommitted(rounds) && i < |rows|
    requires rows[i].status == Pending ==>
               PendingBefore(rows, i) < batchSize && rows[i].attempts + |rounds| >= Tries(maxAttempts)
    ensures SettledAfter(rows, rounds, batchSize, maxAttempts, i)
    decreases |rounds|
  {
    if rounds != [] {
      var grown := WithNew(rows, rounds[0].added);
      var polled := Poll(grown, rounds[0].up, batchSize, maxAttempts);
      RoundShrinks(rows, rounds[0], batchSize, maxAttempts, i);
      CommittedRoundsStayAccurate(rows, rounds[..1], batchSize, maxAttempts);
      assert After(rows, rounds[..1], batchSize, maxAttempts) == polled;
      FrontRowSettles(polled, rounds[1..], batchSize, maxAttempts, i);
    }
  }

  function RanksFrom(rows: seq<Row>, i: nat, batchSize: nat): nat
    requires i <= |rows|
  {
    if i == 0 then 0
    else RanksFrom(rows, i - 1, batchSize)
         + if rows[i - 1].status == Pending && PendingBefore(rows, i - 1) >= batchSize then 1 else 0
  }

  lemma {:induction false} RanksFromCount(rows: seq<Row>, i: nat, batchSize: nat)
    requires i <= |rows|
    ensures RanksFrom(rows, i, batchSize)
            == if PendingBefore(rows, i) >= batchSize then PendingBefore(rows, i) - batchSize else 0
  {
    if i > 0 {
      RanksFromCount(rows, i - 1, batchSize);
    }
  }

  lemma {:induction false} OnlyLaterRanksRemain(rows: seq<Row>, rows': seq<Row>, i: nat, batchSize: nat)
    requires i <= |rows| && i <= |rows'|
    requires forall p: nat :: p < i && rows'[p].status == Pending ==>
               rows[p].status == Pending && PendingBefore(rows, p) >= batchSize
    ensures PendingBefore(rows', i) <= RanksFrom(rows, i, batchSize)
  {
    if i > 0 {
      OnlyLaterRanksRemain(rows, rows', i - 1, batchSize);
    }
  }

  /** After Tries rounds the first batchSize pending rows are settled, so every row behind them has
      moved up by batchSize. */
  lemma {:induction false} BlockSettles(rows: seq<Row>, rounds: seq<Round>, batchSize: nat, maxAttempts: int, i: nat)
    requires Accurate(rows, maxAttempts) && AllCommitted(rounds) && i < |rows|
    requires |rounds| == Tries(maxAttempts) && PendingBefore(rows, i) >= batchSize
    ensures |rows| <= |After(rows, rounds, batchSize, maxAttempts)|
    ensures PendingBefore(After(rows, rounds, batchSize, maxAttempts), i) <= PendingBefore(rows, i) - batchSize
  {
    var after := After(rows, rounds, batchSize, maxAttempts);
    AfterGrows(rows, rounds, batchSize, maxAttempts);
    forall p: nat | p < i && after[p].status == Pending
      ensures rows[p].status == Pending && PendingBefore(rows, p) >= batchSize
    {
      if rows[p].status != Pending {
        SettledRowsNeverChange(rows, rounds, batchSize, maxAttempts, p);
      } else if PendingBefore(rows, p) < batchSize {
        FrontRowSettles(rows, rounds, batchSize, maxAttempts, p);
      }
    }
    OnlyLaterRanksRemain(rows, after, i, batchSize);
    RanksFromCount(rows, i, batchSize);
  }

  lemma {:induction false} AfterGrows(rows: seq<Row>, rounds: seq<Round>, batchSize: nat, maxAttempts: int)
    ensures |rows| <= |After(rows, rounds, batchSize, maxAttempts)|
    decreases |rounds|
  {
    if rounds != [] {
      var grown := WithNew(rows, rounds[0].added);
      match rounds[0]
      case Committed(_, up) => AfterGrows(Poll(grown, up, batchSize, maxAttempts), rounds[1..], batchSize, maxAttempts);
      case RolledBack(_, up, reached) => AfterGrows(RolledBackPoll(grown, up, reached, batchSize), rounds[1..], batchSize, maxAttempts);
    }
  }

  lemma {:induction false} AfterSplits(rows: seq<Row>, first: seq<Round>, rest: seq<Round>, batchSize: nat, maxAttempts: int)
    ensures After(rows, first + rest, batchSize, maxAttempts)
            == After(After(rows, first, batchSize, maxAttempts), rest, batchSize, maxAttempts)
    decreases |first|
  {
    if first == [] {
      assert first + rest == rest;
    } else {
      assert (first + rest)[1..] == first[1..] + rest;
      var grown := WithNew(rows, first[0].added);
      match first[0]
      case Committed(_, up) => AfterSplits(Poll(grown, up, batchSize, maxAttempts), first[1..], rest, batchSize, maxAttempts);
      case RolledBack(_, up, reached) => AfterSplits(RolledBackPoll(grown, up, reached, batchSize), first[1..], rest, batchSize, maxAttempts);
    }
  }

  /** The polls that settle a row with j pending rows ahead of it. */
  function PollsNeeded(ahead: nat, batchSize: nat, maxAttempts: int): nat
    requires batchSize > 0
  {
    if ahead < batchSize then Tries(maxAttempts)
    else Tries(maxAttempts) + PollsNeeded(ahead - batchSize, batchSize, maxAttempts)
  }

  lemma {:induction false} PollsNeededClosedForm(ahead: nat, batchSize: nat, maxAttempts: int)
    requires batchSize > 0
    ensures PollsNeeded(ahead, batchSize, maxAttempts) == Tries(maxAttempts) * (ahead / batchSize + 1)
  {
    if ahead >= batchSize {
      PollsNeededClosedForm(ahead - batchSize, batchSize, maxAttempts);
      QuotientDrops(ahead, batchSize);
      Distributes(Tries(maxAttempts), ahead / batchSize);
    }
  }

  /** The state after a first block of rounds, as seen from row i. */
  lemma FirstBlock(rows: seq<Row>, rounds: seq<Round>, batchSize: nat, maxAttempts: int, i: nat)
    returns (settled: seq<Row>, rest: seq<Round>)
    requires Accurate(rows, maxAttempts) && AllCommitted(rounds) && i < |rows|
    requires |rounds| >= Tries(maxAttempts) && PendingBefore(rows, i) >= batchSize
    ensures SettledAfter(settled, rest, batchSize, maxAttempts, i) ==> SettledAfter(rows, rounds, batchSize, maxAttempts, i)
    ensures Accurate(settled, maxAttempts) && AllCommitted(rest) && |rest| == |rounds| - Tries(maxAttempts)
    ensures |rows| <= |settled| && PendingBefore(settled, i) <= PendingBefore(rows, i) - batchSize
  {
    var first := rounds[..Tries(maxAttempts)];
    rest := rounds[Tries(maxAttempts)..];
    assert rounds == first + rest;
    AfterSplits(rows, first, rest, batchSize, maxAttempts);
    BlockSettles(rows, first, batchSize, maxAttempts, i);
    CommittedRoundsStayAccurate(rows, first, batchSize, maxAttempts);
    settled := After(rows, first, batchSize, maxAttempts);
  }

  lemma {:induction false} EnoughPollsSettle(rows: seq<Row>, rounds: seq<Round>, batchSize: nat, maxAttempts: int, i: nat, ahead: nat)
    requires Accurate(rows, maxAttempts) && AllCommitted(rounds) && i < |rows| && batchSize > 0
    requires PendingBefore(rows, i) <= ahead && |rounds| >= PollsNeeded(ahead, batchSize, maxAttempts)
    ensures SettledAfter(rows, rounds, batchSize, maxAttempts, i)
    decreases ahead
  {
    if PendingBefore(rows, i) < batchSize {
      PollsNeededAtLeastTries(ahead, batchSize, maxAttempts);
      FrontRowSettles(rows, rounds, batchSize, maxAttempts, i);
    } else {
      PollsNeededStep(ahead, batchSize, maxAttempts);
      var settled, rest := FirstBlock(rows, rounds, batchSize, maxAttempts, i);
      EnoughPollsSettle(settled, rest, batchSize, maxAttempts, i, ahead - batchSize);
    }
  }

  lemma PollsNeededStep(ahead: nat, batchSize: nat, maxAttempts: int)
    requires 0 < batchSize <= ahead
    ensures PollsNeeded(ahead, batchSize, maxAttempts)
            == Tries(maxAttempts) + PollsNeeded(ahead - batchSize, batchSize, maxAttempts)
  {
  }

  lemma {:induction false} PollsNeededAtLeastTries(ahead: nat, batchSize: nat, maxAttempts: int)
    requires batchSize > 0
    ensures PollsNeeded(ahead, batchSize, maxAttempts) >= Tries(maxAttempts)
  {
  }

  /** Whatever publishes succeed and whatever rows are added behind it, a pending row with j
      pending rows ahead is SENT or FAILED after max_attempts * (j div batch_size + 1) polls. */
  lemma {:induction false} PendingRowsSettleInTime(rows: seq<Row>, rounds: seq<Round>, batchSize: nat, maxAttempts: int, i: nat)
    requires Accurate(rows, maxAttempts) && AllCommitted(rounds) && i < |rows| && batchSize > 0
    requires |rounds| >= Tries(maxAttempts) * (PendingBefore(rows, i) / batchSize + 1)
    ensures SettledAfter(rows, rounds, batchSize, maxAttempts, i)
  {
    PollsNeededClosedForm(PendingBefore(rows, i), batchSize, maxAttempts);
    EnoughPollsSettle(rows, rounds, batchSize, maxAttempts, i, PendingBefore(rows, i));
  }
}
