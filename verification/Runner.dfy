/**
The streaming loop of the seeding worker with its replication client
(`crates/pgshard-agent/src/workflow.rs`, `crates/pgshard-repl/src/client.rs`).
*/
module Runner {
  import opened Wrappers
  import opened Keyspace
  import opened Rows
  import opened Seeding
  import opened Stream
  import M = Messages
  import A = Apply
  import EO = ExactlyOnce
  import F = Filter

  // ------------------------------------------------------ slot feedback

  datatype StandbyStatus = StandbyStatus(write: U64, flush: U64, apply: U64)

  /** A message of the copy stream from the server. */
  datatype Frame = Data(walEnd: U64) | Keepalive(walEnd: U64, replyRequested: bool) | Notice | Done | ErrorFrame | Other

  datatype ClientError = ServerError | Unexpected | Disconnected

  /** The furthest end of the server's log among the frames and `start`. */
  function Furthest(frames: seq<Frame>, start: U64): U64 {
    if frames == [] then start
    else
      var before, f := Furthest(frames[..|frames| - 1], start), frames[|frames| - 1];
      if f.Data? || f.Keepalive? then EO.Max(before, f.walEnd) else before
  }

  /** How many of the frames ask for a reply. */
  function Asked(frames: seq<Frame>): nat {
    if frames == [] then 0
    else Asked(frames[..|frames| - 1]) + if frames[|frames| - 1].Keepalive? && frames[|frames| - 1].replyRequested then 1 else 0
  }

  lemma {:induction false} FurthestIs(frames: seq<Frame>, start: U64)
    ensures var end := Furthest(frames, start);
      && start <= end && (forall i | 0 <= i < |frames| && (frames[i].Data? || frames[i].Keepalive?) :: frames[i].walEnd <= end)
      && (end == start || exists i :: 0 <= i < |frames| && (frames[i].Data? || frames[i].Keepalive?) && frames[i].walEnd == end)
  {
    if frames != [] {
      var n := |frames| - 1;
      FurthestIs(frames[..n], start);
      assert forall i | 0 <= i < n :: frames[i] == frames[..n][i];
    }
  }

  lemma {:induction false} AskedIs(frames: seq<Frame>)
    ensures Asked(frames) == |set i | 0 <= i < |frames| && frames[i].Keepalive? && frames[i].replyRequested|
  {
    if frames != [] {
      var n := |frames| - 1;
      var init := frames[..n];
      AskedIs(init);
      var before := set i | 0 <= i < |init| && init[i].Keepalive? && init[i].replyRequested;
      var all := set i | 0 <= i < |frames| && frames[i].Keepalive? && frames[i].replyRequested;
      assert all == if frames[n].Keepalive? && frames[n].replyRequested then before + {n} else before;
    }
  }

  class ReplicationClient {
    var lastWalEnd: U64
    var confirmed: U64
    /** The standby statuses sent, in order. */
    var sent: seq<StandbyStatus>

    /** What was reported as flushed never decreases and never passes what was confirmed. */
    ghost predicate Valid()
      reads this
    {
      && (forall i, j | 0 <= i < j < |sent| :: sent[i].flush <= sent[j].flush)
      && (forall i | 0 <= i < |sent| :: sent[i].flush == sent[i].apply <= confirmed)
    }

    constructor()
      ensures Valid() && lastWalEnd == 0 && confirmed == 0 && sent == []
    {
      lastWalEnd := 0;
      confirmed := 0;
      sent := [];
    }

    /** A keepalive: answered with what is confirmed, however far the server's log is. */
    method OnKeepalive(walEnd: U64, replyRequested: bool)
      requires Valid()
      modifies this`lastWalEnd, this`sent
      ensures Valid() && lastWalEnd == EO.Max(old(lastWalEnd), walEnd)
      ensures sent == if replyRequested then old(sent) + [StandbyStatus(lastWalEnd, confirmed, confirmed)] else old(sent)
    {
      if walEnd > lastWalEnd {
        lastWalEnd := walEnd;
      }
      if replyRequested {
        SendStandbyStatus();
      }
    }

    /**
    The next data from the server: keepalives before it are answered, notices passed over. The
    write position rises to the furthest end seen; what is confirmed does not move, and every
    reply sent on the way carries exactly that.
    */
    method Next(frames: seq<Frame>) returns (r: Result<Option<Frame>, ClientError>, n: nat)
      requires Valid()
      modifies this`lastWalEnd, this`sent
      ensures Valid() && n <= |frames| && lastWalEnd == Furthest(frames[..n], old(lastWalEnd))
      ensures (forall i | 0 <= i < n - 1 :: frames[i].Keepalive? || frames[i].Notice?)
      ensures match r
        case Ok(Some(f)) => n > 0 && f == frames[n - 1] && f.Data?
        case Ok(None) => n > 0 && frames[n - 1].Done?
        case Err(ServerError) => n > 0 && frames[n - 1].ErrorFrame?
        case Err(Unexpected) => n > 0 && frames[n - 1].Other?
        case Err(Disconnected) => n == |frames| && (n > 0 ==> frames[n - 1].Keepalive? || frames[n - 1].Notice?)
      ensures |sent| == |old(sent)| + Asked(frames[..n]) && sent[..|old(sent)|] == old(sent)
      ensures forall i | |old(sent)| <= i < |sent| :: sent[i].flush == sent[i].apply == confirmed
    {
      n := 0;
      while n < |frames|
        invariant Valid() && n <= |frames| && lastWalEnd == Furthest(frames[..n], old(lastWalEnd))
        invariant forall i | 0 <= i < n :: frames[i].Keepalive? || frames[i].Notice?
        invariant |sent| == |old(sent)| + Asked(frames[..n]) && sent[..|old(sent)|] == old(sent)
        invariant forall i | |old(sent)| <= i < |sent| :: sent[i].flush == sent[i].apply == confirmed
      {
        var f := frames[n];
        assert frames[..n + 1][..n] == frames[..n];
        n := n + 1;
        match f {
          case Data(walEnd) =>
            if walEnd > lastWalEnd {
              lastWalEnd := walEnd;
            }
            return Ok(Some(f)), n;
          case Keepalive(walEnd, replyRequested) => OnKeepalive(walEnd, replyRequested);
          case Notice =>
          case Done => return Ok(None), n;
          case ErrorFrame => return Err(ServerError), n;
          case Other => return Err(Unexpected), n;
        }
      }
      return Err(Disconnected), n;
    }

    method Confirm(lsn: U64)
      requires Valid()
      modifies this`confirmed
      ensures Valid() && confirmed == EO.Max(old(confirmed), lsn)
    {
      if lsn > confirmed {
        confirmed := lsn;
      }
    }

    method SendStandbyStatus()
      requires Valid()
      modifies this`sent
      ensures Valid() && sent == old(sent) + [StandbyStatus(lastWalEnd, confirmed, confirmed)]
    {
      sent := sent + [StandbyStatus(lastWalEnd, confirmed, confirmed)];
    }
  }

  // ------------------------------------------------------------- the loop

  /** The prefix of the cutover's messages, "pgshard". */
  const JOURNAL_PREFIX: M.Text := [112, 103, 115, 104, 97, 114, 100]

  class Worker {
    const wf: Workflow
    const applier: A.Applier
    const client: ReplicationClient

    var filters: map<M.U32, RelFilter>
    var pendingJournal: Option<U64>
    var appliedLsn: U64
    var journalLsn: Option<U64>

    ghost predicate Valid()
      reads this, applier, client
    {
      applier.Valid() && client.Valid()
    }

    constructor(wf: Workflow, applier: A.Applier, client: ReplicationClient, consistentPoint: U64)
      requires applier.Valid() && client.Valid()
      ensures Valid() && this.applier == applier && this.client == client && this.wf == wf
      ensures filters == map[] && pendingJournal == None && appliedLsn == consistentPoint && journalLsn == None
    {
      this.wf := wf;
      this.applier, this.client := applier, client;
      filters := map[];
      pendingJournal := None;
      appliedLsn := consistentPoint;
      journalLsn := None;
    }

    /** The runner's view: its filters, and its applier's relations and buffer. */
    ghost function View(): Runner
      reads this, applier
    {
      Seeding.Runner(filters, applier.relations, applier.pending)
    }

    /** Keep or skip one row change. */
    method OnRow(msg: M.Msg, fate: A.Fate) returns (r: Result<(), RunError>)
      requires Valid() && (msg.Insert? || msg.Update? || msg.Delete?)
      modifies applier, applier.target
      ensures Valid()
      ensures var out := OnMessage(wf, old(View()), msg);
        if out.Ok? then r.Ok? && View() == out.value else r.Err? && r.error == out.error && View() == old(View())
      ensures applier.ack == old(applier.ack) && applier.checkpoint == old(applier.checkpoint)
      ensures applier.target.rows == old(applier.target.rows) && applier.target.progress == old(applier.target.progress)
    {
      hide F.TupleInRange;
      if msg.relOid !in filters {
        return Err(UnknownRow(msg.relOid));
      }
      var f := filters[msg.relOid];
      var keep: Result<bool, F.FilterError>;
      match msg {
        case Insert(_, _, t) =>
          keep := F.TupleInRange(t, f.keyIndex, f.ty, wf.hash, wf.range);
        case Update(_, _, key, full, t) =>
          keep := F.TupleInRange(t, f.keyIndex, f.ty, wf.hash, wf.range);
          if keep.Ok? && (key.Some? || full.Some?) {
            var was := F.TupleInRange(if key.Some? then key.value else full.value, f.keyIndex, f.ty, wf.hash, wf.range);
            if was.Err? {
              return Err(Filtered(was.error));
            }
            if was.value != keep.value {
              return Err(CrossesBoundary);
            }
          }
        case Delete(_, _, key, full) =>
          if key.None? && full.None? {
            return Err(DeleteWithoutKey);
          }
          keep := F.TupleInRange(if key.Some? then key.value else full.value, f.keyIndex, f.ty, wf.hash, wf.range);
      }
      if keep.Err? {
        return Err(Filtered(keep.error));
      }
      if keep.value {
        var handled := applier.Handle(msg, fate);
        if handled.Err? {
          return Err(Refused(handled.error));
        }
      }
      return Ok(());
    }

    /** A relation message: checked against the workflow's tables, then tracked. */
    method OnAnnouncement(msg: M.Msg, fate: A.Fate) returns (r: Result<(), RunError>)
      requires Valid() && msg.Relation?
      modifies this`filters, applier, applier.target
      ensures Valid()
      ensures var out := OnMessage(wf, old(View()), msg);
        if out.Ok? then r.Ok? && View() == out.value else r.Err? && r.error == out.error && View() == old(View())
      ensures r.Ok? <==> exists i :: Filterable(wf, msg, i)
      ensures r.Err? ==> View() == old(View())
      ensures forall i: nat | Filterable(wf, msg, i) ::
        && filters == old(filters)[msg.oid := RelFilter(i, wf.plans[TableName(msg.namespace, msg.name)].ty)]
        && applier.relations == old(applier.relations)[msg.oid := A.RelationOf(msg)] && applier.pending == old(applier.pending)
      ensures applier.ack == old(applier.ack) && applier.checkpoint == old(applier.checkpoint)
      ensures applier.target.rows == old(applier.target.rows) && applier.target.progress == old(applier.target.progress)
    {
      TakenIffFilterable(wf, View(), msg);
      hide Filterable;
      var f := FilterFor(wf, msg);
      if f.Err? {
        return Err(f.error);
      }
      filters := filters[msg.oid := f.value];
      var handled := applier.Handle(msg, fate);
      return Ok(());
    }

    /**
    A commit: apply, and only after that succeeded confirm the applier's acknowledgement,
    report it to the server, and publish the journal position decoded in the transaction.
    */
    method OnCommit(msg: M.Msg, fate: A.Fate) returns (r: Result<(), RunError>)
      requires Valid() && msg.Commit?
      modifies this`pendingJournal, this`appliedLsn, this`journalLsn, applier, applier.target, client
      ensures Valid() && filters == old(filters)
      ensures r.Err? ==> r.error.Refused?
      ensures A.CommitOutcome(msg.commitLsn, msg.endLsn, fate, if r.Ok? then Ok(()) else Err(r.error.apply), old(applier.View()), applier.View(),
                              old(applier.target.rows), applier.target.rows, old(applier.target.progress), applier.target.progress)
      ensures r.Err? ==> client.confirmed == old(client.confirmed) && client.sent == old(client.sent)
                         && appliedLsn == old(appliedLsn) && journalLsn == old(journalLsn)
      ensures r.Ok? ==>
        && client.confirmed == EO.Max(old(client.confirmed), applier.ack) && appliedLsn == applier.ack
        && client.sent == old(client.sent) + [StandbyStatus(client.lastWalEnd, client.confirmed, client.confirmed)]
        && journalLsn == (if old(pendingJournal).Some? then old(pendingJournal) else old(journalLsn)) && pendingJournal == None
    {
      var handled := applier.Handle(msg, fate);
      if handled.Err? {
        return Err(Refused(handled.error));
      }
      client.Confirm(applier.ack);
      client.SendStandbyStatus();
      appliedLsn := applier.ack;
      if pendingJournal.Some? {
        journalLsn := pendingJournal;
      }
      pendingJournal := None;
      return Ok(());
    }

    /** Whether a message is a transactional journal marker of the cutover. */
    static predicate IsJournal(msg: M.Msg) {
      msg.Message? && msg.transactional && msg.prefix == JOURNAL_PREFIX
    }

    /** A journal marker is remembered until its transaction commits; a truncate stops the stream. */
    method OnOther(msg: M.Msg, fate: A.Fate) returns (r: Result<(), RunError>)
      requires Valid() && !msg.Relation? && !msg.Insert? && !msg.Update? && !msg.Delete? && !msg.Commit?
      modifies this`pendingJournal, applier, applier.target
      ensures Valid()
      ensures pendingJournal ==
        if msg.Message? && msg.transactional && msg.prefix == JOURNAL_PREFIX then Some(msg.lsn) else old(pendingJournal)
      ensures var out := OnMessage(wf, old(View()), msg);
        if out.Ok? then r.Ok? && View() == out.value else r.Err? && r.error == out.error && View() == old(View())
      ensures applier.ack == old(applier.ack) && applier.checkpoint == old(applier.checkpoint)
      ensures applier.target.rows == old(applier.target.rows) && applier.target.progress == old(applier.target.progress)
    {
      if IsJournal(msg) {
        pendingJournal := Some(msg.lsn);
      }
      if msg.Truncate? {
        return Err(TruncateRefused);
      }
      var handled := applier.Handle(msg, fate);
      if handled.Err? {
        return Err(Refused(handled.error));
      }
      return Ok(());
    }
  }
}
