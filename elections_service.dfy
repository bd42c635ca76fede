/** Election status maintenance (src/services/elections/elections.service.ts):
    the scheduled job that derives each election's status from the clock,
    and the explicit status change. Dates are instants in milliseconds since
    the epoch; the clock reading `now` is a parameter. */
module ElectionsService {
  import opened Common

  datatype ElectionStatus = Upcoming | Ongoing | Finished

  /** An elections row; `status` is nullable in the table. */
  datatype Election = Election(id: string, name: string, start_date: int, end_date: int, status: Option<ElectionStatus>)

  /** The status an election has at instant `now`. */
  function Classify(now: int, start_date: int, end_date: int): (r: ElectionStatus)
    ensures r == Upcoming <==> now < start_date
    ensures r == Ongoing <==> start_date <= now <= end_date
    ensures r == Finished <==> start_date <= now && end_date < now
  {
    if now < start_date then Upcoming
    else if start_date <= now && now <= end_date then Ongoing
    else Finished
  }

  /** A window that ends before it starts is never ongoing: it is upcoming
      until its start and finished from then on. */
  lemma InvertedWindowNeverOngoing(now: int, start_date: int, end_date: int)
    requires end_date < start_date
    ensures Classify(now, start_date, end_date) == (if now < start_date then Upcoming else Finished)
  {
  }

  function Computed(e: Election, now: int): ElectionStatus {
    Classify(now, e.start_date, e.end_date)
  }

  /** The row as the job leaves it: the computed status, nothing else
      changed. */
  function Refreshed(e: Election, now: int): Election {
    e.(status := Some(Computed(e, now)))
  }

  /** Every row refreshed, in place. */
  function Refresh(rows: seq<Election>, now: int): (r: seq<Election>)
    ensures |r| == |rows|
  {
    seq(|rows|, i requires 0 <= i < |rows| => Refreshed(rows[i], now))
  }

  /** The rows whose stored status differs from the computed one: the rows
      the job writes, in table order. */
  function ChangedIds(rows: seq<Election>, now: int): (r: seq<string>)
    ensures forall id :: id in r <==> exists i :: 0 <= i < |rows| && rows[i].id == id && rows[i].status != Some(Computed(rows[i], now))
  {
    if rows == [] then []
    else
      var n := |rows| - 1;
      var earlier := ChangedIds(rows[..n], now);
      assert forall i :: 0 <= i < n ==> rows[..n][i] == rows[i];
      earlier + (if rows[n].status != Some(Computed(rows[n], now)) then [rows[n].id] else [])
  }

  /** Only the status column changes, and each row gets the status its own
      dates call for. */
  lemma RefreshOnlyStatus(rows: seq<Election>, now: int, i: int)
    requires 0 <= i < |rows|
    ensures Refresh(rows, now)[i] == rows[i].(status := Refresh(rows, now)[i].status)
    ensures Refresh(rows, now)[i].status == Some(Classify(now, rows[i].start_date, rows[i].end_date))
  {
  }

  /** Running the job twice at the same instant is running it once. */
  lemma RefreshIdempotent(rows: seq<Election>, now: int)
    ensures Refresh(Refresh(rows, now), now) == Refresh(rows, now)
  {
    var once := Refresh(rows, now);
    var twice := Refresh(once, now);
    forall i | 0 <= i < |rows| ensures twice[i] == once[i] {
      assert once[i] == Refreshed(rows[i], now);
    }
  }

  /** A second run at the same instant writes no row. */
  lemma SecondRunWritesNothing(rows: seq<Election>, now: int)
    ensures ChangedIds(Refresh(rows, now), now) == []
  {
    var once := Refresh(rows, now);
    forall i | 0 <= i < |once| ensures once[i].status == Some(Computed(once[i], now)) {
      assert once[i] == Refreshed(rows[i], now);
    }
    NothingToWrite(once, now);
  }

  /** A table whose every row already holds its computed status gets no
      write. */
  lemma {:induction false} NothingToWrite(rows: seq<Election>, now: int)
    requires forall i :: 0 <= i < |rows| ==> rows[i].status == Some(Computed(rows[i], now))
    ensures ChangedIds(rows, now) == []
  {
    if rows != [] {
      NothingToWrite(rows[..|rows| - 1], now);
    }
  }

  /** The elections table. */
  class ElectionTable {
    var rows: seq<Election>

    constructor (initial: seq<Election>)
      ensures rows == initial
    {
      rows := initial;
    }

    /** `autoUpdateElectionStatusService`: walk a snapshot of the table and
        write the computed status of every row whose stored status differs.
        `written` lists the ids of the rows written, in order. */
    method AutoUpdateElectionStatus(now: int) returns (written: seq<string>)
      modifies this
      ensures rows == Refresh(old(rows), now)
      ensures written == ChangedIds(old(rows), now)
    {
      var snapshot := rows;
      written := [];
      var i := 0;
      while i < |snapshot|
        invariant 0 <= i <= |snapshot| && |rows| == |snapshot|
        invariant forall k :: 0 <= k < i ==> rows[k] == Refreshed(snapshot[k], now)
        invariant forall k :: i <= k < |snapshot| ==> rows[k] == snapshot[k]
        invariant written == ChangedIds(snapshot[..i], now)
      {
        var election := snapshot[i];
        var newStatus := election.status;
        if now < election.start_date {
          newStatus := Some(Upcoming);
        } else if now >= election.start_date && now <= election.end_date {
          newStatus := Some(Ongoing);
        } else if now > election.end_date {
          newStatus := Some(Finished);
        }
        if newStatus != election.status {
          rows := rows[i := election.(status := newStatus)];
          written := written + [election.id];
        }
        assert snapshot[..i + 1][..i] == snapshot[..i];
        i := i + 1;
      }
      assert snapshot[..i] == snapshot;
    }

    /** `changeElectionStatusService`: one update of the status column of
        the row with this id; the updated row, or None when there is none. */
    method ChangeElectionStatus(id: string, status: ElectionStatus) returns (r: Option<Election>)
      modifies this
      ensures forall i :: 0 <= i < |old(rows)| && old(rows)[i].id == id ==> r.Some?
      ensures r.None? ==> rows == old(rows) && forall e :: e in rows ==> e.id != id
      ensures r.Some? ==> r.value.id == id && r.value.status == Some(status)
      ensures r.Some? ==> r.value in rows
      ensures r.Some? ==>
        exists k :: 0 <= k < |old(rows)| && old(rows)[k].id == id && r.value == old(rows)[k].(status := Some(status))
      ensures |rows| == |old(rows)|
      ensures forall i :: 0 <= i < |rows| ==>
        rows[i] == if old(rows)[i].id == id then old(rows)[i].(status := Some(status)) else old(rows)[i]
    {
      var before := rows;
      rows := seq(|before|, k requires 0 <= k < |before| =>
                    if before[k].id == id then before[k].(status := Some(status)) else before[k]);
      if exists k :: 0 <= k < |before| && before[k].id == id {
        var k :| 0 <= k < |before| && before[k].id == id;
        r := Some(rows[k]);
      } else {
        r := None;
      }
    }
  }
}
