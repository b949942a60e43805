/** The outbox relay of `domain/outbox/relay.go` over a message table: any number of relays polling,
    with crashes, failed marks, stale resets and cleanups in between. */
module Outbox {
  import opened FiniteSets

  type Id = nat

  datatype Status = Pending | Processing | Sent | Failed

  datatype Row = Row(status: Status, retries: int)

  datatype Message = Message(id: Id, retries: int)

  /** `resetsFailed`: whether `ResetStale` also resets Failed rows, as the store's interface says.
      The store in `domain/outbox/gorm` resets Processing rows only. */
  datatype Config = Config(maxRetries: int, batchSize: nat, resetsFailed: bool)

  function IdsOf(msgs: seq<Message>): seq<Id> { seq(|msgs|, i requires 0 <= i < |msgs| => msgs[i].id) }

  ghost predicate Distinct(ids: seq<Id>) { forall i, j :: 0 <= i < j < |ids| ==> ids[i] != ids[j] }

  // ---------- The table ----------

  function WithStatus(rows: map<Id, Row>, ids: seq<Id>, status: Status): map<Id, Row> {
    map id | id in rows :: if id in ids then rows[id].(status := status) else rows[id]
  }

  function Fetched(rows: map<Id, Row>, ids: seq<Id>): map<Id, Row> {
    WithStatus(rows, ids, Processing)
  }

  function MarkedSent(rows: map<Id, Row>, ids: seq<Id>): map<Id, Row> { WithStatus(rows, ids, Sent) }

  function MarkedFailed(rows: map<Id, Row>, failed: Id): map<Id, Row> {
    if failed in rows then rows[failed := Row(Failed, rows[failed].retries + 1)] else rows
  }

  function AllMarkedFailed(rows: map<Id, Row>, failed: seq<Id>): map<Id, Row>
    decreases |failed|
  {
    if failed == [] then rows else MarkedFailed(AllMarkedFailed(rows, failed[..|failed| - 1]), failed[|failed| - 1])
  }

  function MessagesOf(rows: map<Id, Row>, ids: seq<Id>): (msgs: seq<Message>)
    requires forall i :: 0 <= i < |ids| ==> ids[i] in rows
    ensures |msgs| == |ids|
  {
    seq(|ids|, i requires 0 <= i < |ids| => Message(ids[i], rows[ids[i]].retries))
  }

  // ---------- One poll, undisturbed ----------

  /** Whether `send` delivers: not beyond the retry limit, and then as the publisher answers. */
  predicate Delivers(cfg: Config, msg: Message, accepts: Id -> bool) {
    msg.retries < cfg.maxRetries && accepts(msg.id)
  }

  /** The ids of the messages that are delivered (`ok`), or that are not. */
  function IdsWith(cfg: Config, msgs: seq<Message>, accepts: Id -> bool, ok: bool): seq<Id>
    decreases |msgs|
  {
    if msgs == [] then []
    else
      var init, last := msgs[..|msgs| - 1], msgs[|msgs| - 1];
      IdsWith(cfg, init, accepts, ok) + if Delivers(cfg, last, accepts) == ok then [last.id] else []
  }

  class Store {
    var rows: map<Id, Row>

    constructor ()
      ensures rows == map[]
    {
      rows := map[];
    }

    /** `wanted`: some pending rows, which the database picks. None of them is pending afterwards. */
    method FetchPending(wanted: seq<Id>) returns (msgs: seq<Message>)
      requires forall i :: 0 <= i < |wanted| ==> wanted[i] in rows && rows[wanted[i]].status == Pending
      modifies this
      ensures IdsOf(msgs) == wanted
      ensures forall i :: 0 <= i < |msgs| ==> msgs[i].retries == old(rows)[wanted[i]].retries
      ensures rows.Keys == old(rows.Keys)
      ensures forall id :: id in rows ==>
                rows[id] == if id in wanted then Row(Processing, old(rows)[id].retries) else old(rows)[id]
    {
      msgs := MessagesOf(rows, wanted);
      rows := Fetched(rows, wanted);
    }

    method MarkSent(ids: seq<Id>)
      modifies this
      ensures rows.Keys == old(rows.Keys)
      ensures forall id :: id in rows ==>
                rows[id] == if id in ids then Row(Sent, old(rows)[id].retries) else old(rows)[id]
    {
      rows := MarkedSent(rows, ids);
    }

    method MarkFailed(id: Id)
      modifies this
      ensures rows.Keys == old(rows.Keys)
      ensures forall i :: i in rows ==>
                rows[i] == if i == id then Row(Failed, old(rows)[i].retries + 1) else old(rows)[i]
    {
      if id in rows {
        rows := rows[id := Row(Failed, rows[id].retries + 1)];
      }
    }
  }

  lemma FetchedRowByRow(rows: map<Id, Row>, wanted: seq<Id>, msgs: seq<Message>, rows': map<Id, Row>)
    requires forall i :: 0 <= i < |wanted| ==> wanted[i] in rows && rows[wanted[i]].status == Pending
    requires IdsOf(msgs) == wanted && forall i :: 0 <= i < |msgs| ==> msgs[i].retries == rows[wanted[i]].retries
    requires rows'.Keys == rows.Keys && forall id :: id in rows' ==>
               rows'[id] == if id in wanted then Row(Processing, rows[id].retries) else rows[id]
    ensures msgs == MessagesOf(rows, wanted) && rows' == Fetched(rows, wanted)
  {
    forall i | 0 <= i < |msgs| ensures msgs[i] == MessagesOf(rows, wanted)[i] {
      assert IdsOf(msgs)[i] == msgs[i].id;
    }
  }

  lemma SentRowByRow(rows: map<Id, Row>, ids: seq<Id>, rows': map<Id, Row>)
    requires rows'.Keys == rows.Keys && forall id :: id in rows' ==>
               rows'[id] == if id in ids then Row(Sent, rows[id].retries) else rows[id]
    ensures rows' == MarkedSent(rows, ids)
  {
  }

  lemma FailedRowByRow(rows: map<Id, Row>, id: Id, rows': map<Id, Row>)
    requires rows'.Keys == rows.Keys && forall i :: i in rows' ==>
               rows'[i] == if i == id then Row(Failed, rows[i].retries + 1) else rows[i]
    ensures rows' == MarkedFailed(rows, id)
  {
  }

  lemma LastIsSorted(cfg: Config, msgs: seq<Message>, accepts: Id -> bool, ok: bool)
    requires msgs != []
    ensures var init, last := msgs[..|msgs| - 1], msgs[|msgs| - 1];
            && IdsOf(msgs) == IdsOf(init) + [last.id]
            && IdsWith(cfg, msgs, accepts, ok)
            == if Delivers(cfg, last, accepts) == ok then IdsWith(cfg, init, accepts, ok) + [last.id]
               else IdsWith(cfg, init, accepts, ok)
  {
  }

  lemma AddLast(a: seq<Id>, b: seq<Id>, all: seq<Id>, x: Id)
    requires multiset(a) + multiset(b) == multiset(all)
    ensures multiset(a + [x]) + multiset(b) == multiset(a) + multiset(b + [x]) == multiset(all + [x])
  {
  }

  /** The fetched ids split exactly into the sent and the failed ones. */
  lemma {:induction false} PollSplits(cfg: Config, msgs: seq<Message>, accepts: Id -> bool)
    ensures multiset(IdsWith(cfg, msgs, accepts, true)) + multiset(IdsWith(cfg, msgs, accepts, false))
            == multiset(IdsOf(msgs))
    decreases |msgs|
  {
    if msgs != [] {
      var init, last := msgs[..|msgs| - 1], msgs[|msgs| - 1];
      PollSplits(cfg, init, accepts);
      LastIsSorted(cfg, msgs, accepts, true);
      LastIsSorted(cfg, msgs, accepts, false);
      AddLast(IdsWith(cfg, init, accepts, true), IdsWith(cfg, init, accepts, false), IdsOf(init), last.id);
    }
  }

  lemma {:induction false} MarkedFailedRows(rows: map<Id, Row>, failed: seq<Id>)
    requires Distinct(failed)
    ensures var r := AllMarkedFailed(rows, failed);
            && r.Keys == rows.Keys
            && forall id :: id in rows ==> r[id] == if id in failed then Row(Failed, rows[id].retries + 1) else rows[id]
    decreases |failed|
  {
    if failed != [] {
      var init := failed[..|failed| - 1];
      assert failed == init + [failed[|failed| - 1]];
      MarkedFailedRows(rows, init);
    }
  }

  lemma {:induction false} IdsWithDistinct(cfg: Config, msgs: seq<Message>, accepts: Id -> bool, ok: bool)
    requires Distinct(IdsOf(msgs))
    ensures Distinct(IdsWith(cfg, msgs, accepts, ok))
    ensures forall id :: id in IdsWith(cfg, msgs, accepts, ok) ==> id in IdsOf(msgs)
    decreases |msgs|
  {
    if msgs != [] {
      var init, last := msgs[..|msgs| - 1], msgs[|msgs| - 1];
      LastIsNew(msgs);
      IdsWithDistinct(cfg, init, accepts, ok);
    }
  }

  lemma LastIsNew(msgs: seq<Message>)
    requires Distinct(IdsOf(msgs)) && msgs != []
    ensures var init, last := msgs[..|msgs| - 1], msgs[|msgs| - 1];
            IdsOf(msgs) == IdsOf(init) + [last.id] && Distinct(IdsOf(init)) && last.id !in IdsOf(init)
  {
    var ids, init := IdsOf(msgs), IdsOf(msgs[..|msgs| - 1]);
    assert ids == init + [msgs[|msgs| - 1].id];
    assert forall i :: 0 <= i < |init| ==> init[i] == ids[i] && ids[i] != ids[|init|];
  }

  /** An id is among the sent exactly if it was below the retry limit and the publisher took it, and
      otherwise among the failed. */
  lemma {:induction false} SortedExactly(cfg: Config, rows: map<Id, Row>, wanted: seq<Id>, accepts: Id -> bool,
                                         ok: bool, id: Id)
    requires forall i :: 0 <= i < |wanted| ==> wanted[i] in rows
    ensures id in IdsWith(cfg, MessagesOf(rows, wanted), accepts, ok)
            <==> id in wanted && ok == (rows[id].retries < cfg.maxRetries && accepts(id))
    decreases |wanted|
  {
    if wanted != [] {
      var init := wanted[..|wanted| - 1];
      assert wanted == init + [wanted[|wanted| - 1]];
      assert MessagesOf(rows, wanted)[..|init|] == MessagesOf(rows, init);
      SortedExactly(cfg, rows, init, accepts, ok, id);
    }
  }

  /** The sent ids are those whose row was below the retry limit and that the publisher took; the failed
      ids are the other fetched ones. */
  ghost predicate SortedAs(cfg: Config, rows: map<Id, Row>, wanted: seq<Id>, accepts: Id -> bool,
                           sentIds: seq<Id>, failedIds: seq<Id>)
    requires forall i :: 0 <= i < |wanted| ==> wanted[i] in rows
  {
    && (forall id :: id in sentIds <==> id in wanted && rows[id].retries < cfg.maxRetries && accepts(id))
    && (forall id :: id in failedIds <==> id in wanted && !(rows[id].retries < cfg.maxRetries && accepts(id)))
  }

  /** Sent rows are Sent, failed rows are Failed with one retry more, and no other row changes. */
  ghost predicate MarkedAs(rows: map<Id, Row>, sentIds: seq<Id>, failedIds: seq<Id>, rows': map<Id, Row>) {
    && rows'.Keys == rows.Keys
    && forall id :: id in rows ==>
         rows'[id] == if id in sentIds then Row(Sent, rows[id].retries)
                      else if id in failedIds then Row(Failed, rows[id].retries + 1)
                      else rows[id]
  }

  /** What a poll comes to, told by the rows before and the publisher's answers: each fetched id is once
      among the sent or once among the failed, and marked accordingly. */
  ghost predicate PolledTo(cfg: Config, rows: map<Id, Row>, wanted: seq<Id>, accepts: Id -> bool,
                           sentIds: seq<Id>, failedIds: seq<Id>, rows': map<Id, Row>)
    requires forall i :: 0 <= i < |wanted| ==> wanted[i] in rows
  {
    && multiset(sentIds) + multiset(failedIds) == multiset(wanted)
    && SortedAs(cfg, rows, wanted, accepts, sentIds, failedIds)
    && (Distinct(wanted) ==> MarkedAs(rows, sentIds, failedIds, rows'))
  }

  lemma PollSorts(cfg: Config, rows: map<Id, Row>, wanted: seq<Id>, accepts: Id -> bool)
    requires forall i :: 0 <= i < |wanted| ==> wanted[i] in rows
    ensures SortedAs(cfg, rows, wanted, accepts, IdsWith(cfg, MessagesOf(rows, wanted), accepts, true),
                     IdsWith(cfg, MessagesOf(rows, wanted), accepts, false))
  {
    var sent := IdsWith(cfg, MessagesOf(rows, wanted), accepts, true);
    var failed := IdsWith(cfg, MessagesOf(rows, wanted), accepts, false);
    forall id ensures id in sent <==> id in wanted && rows[id].retries < cfg.maxRetries && accepts(id) {
      SortedExactly(cfg, rows, wanted, accepts, true, id);
    }
    forall id ensures id in failed <==> id in wanted && !(rows[id].retries < cfg.maxRetries && accepts(id)) {
      SortedExactly(cfg, rows, wanted, accepts, false, id);
    }
  }

  lemma PollMarks(rows: map<Id, Row>, wanted: seq<Id>, sentIds: seq<Id>, failedIds: seq<Id>)
    requires (forall id :: id in sentIds || id in failedIds <==> id in wanted) && Distinct(failedIds)
    requires forall id :: id in sentIds ==> id !in failedIds
    ensures MarkedAs(rows, sentIds, failedIds,
                     MarkedSent(AllMarkedFailed(Fetched(rows, wanted), failedIds), sentIds))
  {
    MarkedFailedRows(Fetched(rows, wanted), failedIds);
  }

  lemma PollMarksEachRow(cfg: Config, rows: map<Id, Row>, wanted: seq<Id>, accepts: Id -> bool)
    requires forall i :: 0 <= i < |wanted| ==> wanted[i] in rows
    ensures var sent := IdsWith(cfg, MessagesOf(rows, wanted), accepts, true);
            var failed := IdsWith(cfg, MessagesOf(rows, wanted), accepts, false);
            PolledTo(cfg, rows, wanted, accepts, sent, failed,
                     MarkedSent(AllMarkedFailed(Fetched(rows, wanted), failed), sent))
  {
    var msgs := MessagesOf(rows, wanted);
    assert IdsOf(msgs) == wanted;
    PollSplits(cfg, msgs, accepts);
    PollSorts(cfg, rows, wanted, accepts);
    if Distinct(wanted) {
      IdsWithDistinct(cfg, msgs, accepts, false);
      PollMarks(rows, wanted, IdsWith(cfg, msgs, accepts, true), IdsWith(cfg, msgs, accepts, false));
    }
  }

  /** How the ids that are sorted so far grow by one message. */
  lemma SortedNext(cfg: Config, msgs: seq<Message>, accepts: Id -> bool, i: nat, ok: bool)
    requires i < |msgs|
    ensures IdsWith(cfg, msgs[..i + 1], accepts, ok)
         == if Delivers(cfg, msgs[i], accepts) == ok then IdsWith(cfg, msgs[..i], accepts, ok) + [msgs[i].id]
            else IdsWith(cfg, msgs[..i], accepts, ok)
  {
    assert msgs[..i + 1][..i] == msgs[..i];
  }

  /** The loop of `poll` over the fetched messages. */
  method SendEach(cfg: Config, store: Store, msgs: seq<Message>, accepts: Id -> bool)
    returns (sentIds: seq<Id>, failedIds: seq<Id>)
    modifies store
    ensures sentIds == IdsWith(cfg, msgs, accepts, true) && failedIds == IdsWith(cfg, msgs, accepts, false)
    ensures store.rows == AllMarkedFailed(old(store.rows), failedIds)
  {
    sentIds, failedIds := [], [];
    for i := 0 to |msgs|
      invariant sentIds == IdsWith(cfg, msgs[..i], accepts, true)
      invariant failedIds == IdsWith(cfg, msgs[..i], accepts, false)
      invariant store.rows == AllMarkedFailed(old(store.rows), failedIds)
    {
      SortedNext(cfg, msgs, accepts, i, true);
      SortedNext(cfg, msgs, accepts, i, false);
      if msgs[i].retries >= cfg.maxRetries || !accepts(msgs[i].id) {
        ghost var rows := store.rows;
        store.MarkFailed(msgs[i].id);
        FailedRowByRow(rows, msgs[i].id, store.rows);
        assert (failedIds + [msgs[i].id])[..|failedIds|] == failedIds;
        failedIds := failedIds + [msgs[i].id];
        continue;
      }
      sentIds := sentIds + [msgs[i].id];
    }
    assert msgs[..|msgs|] == msgs;
  }

  /** `poll`, when every mark succeeds and nobody interferes. */
  method Poll(cfg: Config, store: Store, wanted: seq<Id>, accepts: Id -> bool)
    returns (sentIds: seq<Id>, failedIds: seq<Id>)
    requires forall i :: 0 <= i < |wanted| ==> wanted[i] in store.rows && store.rows[wanted[i]].status == Pending
    modifies store
    ensures PolledTo(cfg, old(store.rows), wanted, accepts, sentIds, failedIds, store.rows)
  {
    PollMarksEachRow(cfg, store.rows, wanted, accepts);
    var msgs := store.FetchPending(wanted);
    FetchedRowByRow(old(store.rows), wanted, msgs, store.rows);
    if |msgs| == 0 {
      return [], [];
    }
    sentIds, failedIds := SendEach(cfg, store, msgs, accepts);
    ghost var rows := store.rows;
    if |sentIds| > 0 {
      store.MarkSent(sentIds);
    }
    SentRowByRow(rows, sentIds, store.rows);
  }

  // ---------- The step system ----------

  datatype Relay =
    | Idle
    | Sending(batch: seq<Message>, next: nat, sent: seq<Id>, failed: seq<Id>)
    | Failing(batch: seq<Message>, next: nat, sent: seq<Id>, failed: seq<Id>)
      // batch[next] not delivered, not yet marked

  datatype State = State(
    rows: map<Id, Row>, relays: map<nat, Relay>,
    saved: set<Id>,      // everything ever saved
    cleaned: set<Id>,    // everything Cleanup ever deleted
    delivered: set<Id>)  // everything the publisher ever accepted

  datatype Action =
    | Save(ids: set<Id>)
    | Fetch(r: nat, picked: seq<Id>)
    | Send(r: nat, accepted: bool, ok: bool)  // whether the publisher took it, and what it answered
    | MarkFailed(r: nat, stored: bool)
    | MarkSent(r: nat, stored: bool)
    | Crash(r: nat)
    | ResetStale(ids: set<Id>)                // those that have been there long enough
    | Cleanup(ids: set<Id>)

  function RelayAt(s: State, r: nat): Relay { if r in s.relays then s.relays[r] else Idle }

  predicate Resettable(cfg: Config, row: Row) {
    row.status == Processing || (cfg.resetsFailed && row.status == Failed)
  }

  predicate Enabled(cfg: Config, s: State, a: Action) {
    match a
    case Save(ids) => ids !! s.saved
    case Fetch(r, ids) =>
      && RelayAt(s, r).Idle? && 0 < |ids| <= cfg.batchSize
      && (forall i :: 0 <= i < |ids| ==> ids[i] in s.rows && s.rows[ids[i]].status == Pending)
      && (forall i, j :: 0 <= i < j < |ids| ==> ids[i] != ids[j])
    case Send(r, accepted, ok) =>
      && RelayAt(s, r).Sending? && s.relays[r].next < |s.relays[r].batch| && (ok ==> accepted)
      && (s.relays[r].batch[s.relays[r].next].retries >= cfg.maxRetries ==> !accepted)
    case MarkFailed(r, _) => RelayAt(s, r).Failing? && s.relays[r].next < |s.relays[r].batch|
    case MarkSent(r, _) => RelayAt(s, r).Sending? && s.relays[r].next == |s.relays[r].batch|
    case Crash(r) => !RelayAt(s, r).Idle?
    case ResetStale(ids) => forall id :: id in ids ==> id in s.rows && Resettable(cfg, s.rows[id])
    case Cleanup(ids) => forall id :: id in ids ==> id in s.rows && s.rows[id].status == Sent
  }

  function Next(cfg: Config, s: State, a: Action): State
    requires Enabled(cfg, s, a)
  {
    match a
    case Save(ids) =>
      s.(rows := s.rows + map id | id in ids :: Row(Pending, 0), saved := s.saved + ids)
    case Fetch(r, ids) =>
      s.(rows := Fetched(s.rows, ids), relays := s.relays[r := Sending(MessagesOf(s.rows, ids), 0, [], [])])
    case Send(r, accepted, ok) =>
      var p := s.relays[r];
      var id := p.batch[p.next].id;
      s.(delivered := if accepted then s.delivered + {id} else s.delivered,
         relays := s.relays[r := if ok then Sending(p.batch, p.next + 1, p.sent + [id], p.failed)
                                 else Failing(p.batch, p.next, p.sent, p.failed)])
    case MarkFailed(r, stored) =>
      var p := s.relays[r];
      var id := p.batch[p.next].id;
      s.(rows := if stored then MarkedFailed(s.rows, id) else s.rows,
         relays := s.relays[r := Sending(p.batch, p.next + 1, p.sent, p.failed + [id])])
    case MarkSent(r, stored) =>
      s.(rows := if stored then MarkedSent(s.rows, s.relays[r].sent) else s.rows, relays := s.relays[r := Idle])
    case Crash(r) => s.(relays := s.relays[r := Idle])
    case ResetStale(ids) =>
      s.(rows := map id | id in s.rows :: if id in ids then s.rows[id].(status := Pending) else s.rows[id])
    case Cleanup(ids) => s.(rows := s.rows - ids, cleaned := s.cleaned + ids)
  }

  function Init(): State { State(map[], map[], {}, {}, {}) }

  ghost predicate IsRun(cfg: Config, s: State, run: seq<Action>)
    decreases |run|
  {
    run == [] || (Enabled(cfg, s, run[0]) && IsRun(cfg, Next(cfg, s, run[0]), run[1..]))
  }

  function After(cfg: Config, s: State, run: seq<Action>): State
    requires IsRun(cfg, s, run)
    decreases |run|
  {
    if run == [] then s else After(cfg, Next(cfg, s, run[0]), run[1..])
  }

  /** At every moment of a poll the ids dealt with are exactly those sent and those failed. */
  ghost predicate RelayOk(p: Relay, delivered: set<Id>) {
    p.Idle? ||
    (&& p.next <= |p.batch|
     && Distinct(IdsOf(p.batch))
     && multiset(IdsOf(p.batch[..p.next])) == multiset(p.sent) + multiset(p.failed)
     && (forall id :: id in p.sent ==> id in delivered))
  }

  /** A message is Sent, or gone, only if it has been delivered; and only sent messages go. */
  ghost predicate Inv(s: State) {
    && (forall id :: id in s.rows && s.rows[id].status == Sent ==> id in s.delivered)
    && s.cleaned <= s.delivered
    && s.saved == s.rows.Keys + s.cleaned && s.rows.Keys !! s.cleaned
    && (forall r :: r in s.relays ==> RelayOk(s.relays[r], s.delivered))
  }

  lemma PrefixGrows(p: Relay)
    requires !p.Idle? && p.next < |p.batch|
    ensures IdsOf(p.batch[..p.next + 1]) == IdsOf(p.batch[..p.next]) + [p.batch[p.next].id]
  {
    assert p.batch[..p.next + 1] == p.batch[..p.next] + [p.batch[p.next]];
  }

  lemma RelayStep(cfg: Config, s: State, a: Action, r: nat)
    requires Inv(s) && Enabled(cfg, s, a) && r in Next(cfg, s, a).relays
    ensures RelayOk(Next(cfg, s, a).relays[r], Next(cfg, s, a).delivered)
  {
    var s' := Next(cfg, s, a);
    if r in s.relays && s.relays[r] == s'.relays[r] {
      assert s.delivered <= s'.delivered;
    } else if a.Fetch? {
      assert IdsOf(MessagesOf(s.rows, a.picked)) == a.picked;
      assert IdsOf(s'.relays[r].batch[..0]) == [];
    } else if a.Send? || a.MarkFailed? {
      RelaySends(cfg, s, a);
    }
  }

  lemma RelayAdvances(p: Relay, delivered: set<Id>)
    requires RelayOk(p, delivered) && !p.Idle? && p.next < |p.batch|
    ensures var id := p.batch[p.next].id;
            && RelayOk(Sending(p.batch, p.next + 1, p.sent + [id], p.failed), delivered + {id})
            && RelayOk(Sending(p.batch, p.next + 1, p.sent, p.failed + [id]), delivered)
  {
    PrefixGrows(p);
  }

  lemma RelaySends(cfg: Config, s: State, a: Action)
    requires Inv(s) && Enabled(cfg, s, a) && (a.Send? || a.MarkFailed?)
    ensures RelayOk(Next(cfg, s, a).relays[a.r], Next(cfg, s, a).delivered)
  {
    var p := s.relays[a.r];
    assert RelayOk(p, s.delivered);
    RelayAdvances(p, s.delivered);
  }

  lemma RowsStep(cfg: Config, s: State, a: Action, id: Id)
    requires Inv(s) && Enabled(cfg, s, a) && id in Next(cfg, s, a).rows
    ensures Next(cfg, s, a).rows[id].status == Sent ==> id in Next(cfg, s, a).delivered
  {
    if a.MarkSent? {
      assert RelayOk(s.relays[a.r], s.delivered);
    }
  }

  lemma InvStep(cfg: Config, s: State, a: Action)
    requires Inv(s) && Enabled(cfg, s, a)
    ensures Inv(Next(cfg, s, a))
  {
    var s' := Next(cfg, s, a);
    forall r | r in s'.relays ensures RelayOk(s'.relays[r], s'.delivered) {
      RelayStep(cfg, s, a, r);
    }
    forall id | id in s'.rows && s'.rows[id].status == Sent ensures id in s'.delivered {
      RowsStep(cfg, s, a, id);
    }
    assert s'.saved == s'.rows.Keys + s'.cleaned && s'.rows.Keys !! s'.cleaned;
  }

  lemma {:induction false} RunKeeps(cfg: Config, s: State, run: seq<Action>)
    requires Inv(s) && IsRun(cfg, s, run)
    ensures Inv(After(cfg, s, run))
    decreases |run|
  {
    if run != [] {
      InvStep(cfg, s, run[0]);
      RunKeeps(cfg, Next(cfg, s, run[0]), run[1..]);
    }
  }

  /** In every run: what is marked Sent or has disappeared was delivered at least once, and what has
      not been delivered is still in the table. */
  lemma NothingLost(cfg: Config, run: seq<Action>, id: Id)
    requires IsRun(cfg, Init(), run) && id in After(cfg, Init(), run).saved
    ensures var s := After(cfg, Init(), run);
            && (id !in s.rows || s.rows[id].status == Sent ==> id in s.delivered)
            && (id !in s.delivered ==> id in s.rows)
  {
    RunKeeps(cfg, Init(), run);
  }

  /** When a poll comes to mark its sent messages, the batch has split exactly, without repeats. */
  lemma BatchSplits(s: State, r: nat)
    requires Inv(s) && RelayAt(s, r).Sending? && s.relays[r].next == |s.relays[r].batch|
    ensures multiset(IdsOf(s.relays[r].batch)) == multiset(s.relays[r].sent) + multiset(s.relays[r].failed)
    ensures forall id :: id in s.relays[r].sent ==> id !in s.relays[r].failed
  {
    var p := s.relays[r];
    assert RelayOk(p, s.delivered);
    assert p.batch[..p.next] == p.batch;
    var sent, failed := multiset(p.sent), multiset(p.failed);
    assert forall id :: (id in p.sent <==> id in sent) && (id in p.failed <==> id in failed);
    forall id | id in p.sent ensures id !in failed {
      DistinctOnce(IdsOf(p.batch), id);
    }
  }

  lemma {:induction false} DistinctOnce(ids: seq<Id>, id: Id)
    requires Distinct(ids)
    ensures multiset(ids)[id] <= 1
  {
    if ids != [] {
      DistinctOnce(ids[1..], id);
      assert ids == [ids[0]] + ids[1..];
      assert ids[0] !in ids[1..];
      assert ids[0] !in multiset(ids[1..]);
    }
  }

  // ---------- No message is fetched twice without a reset ----------

  /** The relay has this message in its current batch. */
  predicate Holds(p: Relay, id: Id) { !p.Idle? && id in IdsOf(p.batch) }

  /** No row that a relay holds is pending, and no two relays hold the same one. */
  ghost predicate HeldOnce(s: State) { Claimed(s) && Exclusive(s.relays) }

  ghost predicate Claimed(s: State) {
    forall r, id :: r in s.relays && Holds(s.relays[r], id) ==>
      id in s.saved && (id in s.rows ==> s.rows[id].status != Pending)
  }

  ghost predicate Exclusive(relays: map<nat, Relay>) {
    forall r, q, id :: r in relays && q in relays && q != r && Holds(relays[r], id) ==> !Holds(relays[q], id)
  }

  lemma HeldBefore(cfg: Config, s: State, a: Action, r: nat, id: Id)
    requires Inv(s) && Enabled(cfg, s, a) && r in Next(cfg, s, a).relays && Holds(Next(cfg, s, a).relays[r], id)
    ensures if a.Fetch? && r == a.r then id in a.picked else r in s.relays && Holds(s.relays[r], id)
  {
    if a.Fetch? && r == a.r {
      assert IdsOf(Next(cfg, s, a).relays[a.r].batch) == a.picked;
    }
  }

  lemma NoOtherHolds(cfg: Config, s: State, a: Action, r: nat, q: nat, id: Id)
    requires Inv(s) && HeldOnce(s) && Enabled(cfg, s, a)
    requires var relays := Next(cfg, s, a).relays; r in relays && q in relays && q != r && Holds(relays[r], id)
    ensures !Holds(Next(cfg, s, a).relays[q], id)
  {
    HeldBefore(cfg, s, a, r, id);
    if Holds(Next(cfg, s, a).relays[q], id) {
      HeldBefore(cfg, s, a, q, id);
    }
  }

  lemma HeldIsClaimed(cfg: Config, s: State, a: Action, r: nat, id: Id)
    requires Inv(s) && HeldOnce(s) && Enabled(cfg, s, a) && !a.ResetStale?
    requires r in Next(cfg, s, a).relays && Holds(Next(cfg, s, a).relays[r], id)
    ensures var s' := Next(cfg, s, a); id in s'.saved && (id in s'.rows ==> s'.rows[id].status != Pending)
  {
    HeldBefore(cfg, s, a, r, id);
  }

  lemma ClaimedStep(cfg: Config, s: State, a: Action)
    requires Inv(s) && HeldOnce(s) && Enabled(cfg, s, a) && !a.ResetStale?
    ensures Claimed(Next(cfg, s, a))
  {
    var s' := Next(cfg, s, a);
    forall r, id | r in s'.relays && Holds(s'.relays[r], id)
      ensures id in s'.saved && (id in s'.rows ==> s'.rows[id].status != Pending)
    {
      HeldIsClaimed(cfg, s, a, r, id);
    }
  }

  lemma ExclusiveStep(cfg: Config, s: State, a: Action)
    requires Inv(s) && HeldOnce(s) && Enabled(cfg, s, a)
    ensures Exclusive(Next(cfg, s, a).relays)
  {
    var relays := Next(cfg, s, a).relays;
    forall r, q, id | r in relays && q in relays && q != r && Holds(relays[r], id) ensures !Holds(relays[q], id) {
      NoOtherHolds(cfg, s, a, r, q, id);
    }
  }

  lemma HeldOnceStep(cfg: Config, s: State, a: Action)
    requires Inv(s) && HeldOnce(s) && Enabled(cfg, s, a) && !a.ResetStale?
    ensures HeldOnce(Next(cfg, s, a))
  {
    ClaimedStep(cfg, s, a);
    ExclusiveStep(cfg, s, a);
  }

  lemma {:induction false} HeldOnceRun(cfg: Config, s: State, run: seq<Action>)
    requires Inv(s) && HeldOnce(s) && IsRun(cfg, s, run)
    requires forall i :: 0 <= i < |run| ==> !run[i].ResetStale?
    ensures HeldOnce(After(cfg, s, run))
    decreases |run|
  {
    if run != [] {
      InvStep(cfg, s, run[0]);
      HeldOnceStep(cfg, s, run[0]);
      HeldOnceRun(cfg, Next(cfg, s, run[0]), run[1..]);
    }
  }

  /** In a run without stale resets no two relays ever have the same message in their batches, and no
      message that a relay has can be fetched. */
  lemma FetchedByOneRelay(cfg: Config, run: seq<Action>, r: nat, id: Id)
    requires IsRun(cfg, Init(), run) && forall i :: 0 <= i < |run| ==> !run[i].ResetStale?
    requires r in After(cfg, Init(), run).relays && Holds(After(cfg, Init(), run).relays[r], id)
    ensures var s := After(cfg, Init(), run);
            && (forall q :: q in s.relays && q != r ==> !Holds(s.relays[q], id))
            && (forall q, picked :: Enabled(cfg, s, Fetch(q, picked)) ==> id !in picked)
  {
    HeldOnceRun(cfg, Init(), run);
  }

  // ---------- Is a failed message tried again? ----------

  ghost predicate HeldByNone(s: State, id: Id) {
    forall r :: r in s.relays ==> !Holds(s.relays[r], id)
  }

  /** The row is Failed, and no relay has the message in its current batch. */
  ghost predicate GivenUp(s: State, id: Id) {
    id in s.rows && s.rows[id].status == Failed && HeldByNone(s, id)
  }

  /** The row, and every copy of it that a relay has, is at the retry limit. */
  ghost predicate Exhausted(cfg: Config, s: State, id: Id) {
    && id in s.saved && (id in s.rows ==> s.rows[id].retries >= cfg.maxRetries)
    && forall r :: r in s.relays && !s.relays[r].Idle? ==> CopiesExhausted(cfg, s.relays[r].batch, id)
  }

  ghost predicate CopiesExhausted(cfg: Config, batch: seq<Message>, id: Id) {
    forall i :: 0 <= i < |batch| && batch[i].id == id ==> batch[i].retries >= cfg.maxRetries
  }

  /** For one reason or another, the message will not be delivered. */
  ghost predicate Hopeless(cfg: Config, s: State, id: Id) {
    || (!cfg.resetsFailed && GivenUp(s, id))
    || (cfg.batchSize == 0 && HeldByNone(s, id))
    || Exhausted(cfg, s, id)
  }

  lemma InMultiset(ids: seq<Id>, id: Id)
    ensures id in ids <==> id in multiset(ids)
  {
  }

  /** What a relay does not hold it neither sends nor marks. */
  lemma NotMarked(s: State, r: nat, id: Id)
    requires Inv(s) && HeldByNone(s, id) && r in s.relays && !s.relays[r].Idle?
    ensures var p := s.relays[r]; id !in p.sent && (p.next < |p.batch| ==> p.batch[p.next].id != id)
  {
    var p := s.relays[r];
    assert RelayOk(p, s.delivered) && !Holds(p, id);
    if p.next < |p.batch| {
      assert IdsOf(p.batch)[p.next] == p.batch[p.next].id;
    }
    assert forall i :: 0 <= i < p.next ==> IdsOf(p.batch[..p.next])[i] == IdsOf(p.batch)[i];
    InMultiset(p.sent, id);
    InMultiset(IdsOf(p.batch[..p.next]), id);
  }

  lemma HeldByNoneStays(cfg: Config, s: State, a: Action, id: Id)
    requires Inv(s) && HeldByNone(s, id) && Enabled(cfg, s, a)
    requires a.Fetch? ==> id !in a.picked
    ensures HeldByNone(Next(cfg, s, a), id)
    ensures id in Next(cfg, s, a).delivered <==> id in s.delivered
  {
    match a
    case Fetch(r, picked) => assert IdsOf(MessagesOf(s.rows, picked)) == picked;
    case Send(r, _, _) => NotMarked(s, r, id);
    case MarkFailed(r, _) => NotMarked(s, r, id);
    case _ =>
  }

  lemma GivenUpStays(cfg: Config, s: State, a: Action, id: Id)
    requires !cfg.resetsFailed && Inv(s) && GivenUp(s, id) && Enabled(cfg, s, a)
    ensures GivenUp(Next(cfg, s, a), id)
    ensures id in Next(cfg, s, a).delivered <==> id in s.delivered
  {
    HeldByNoneStays(cfg, s, a, id);
    if a.MarkFailed? || a.MarkSent? {
      NotMarked(s, a.r, id);
    }
  }

  lemma ExhaustedStays(cfg: Config, s: State, a: Action, id: Id)
    requires Inv(s) && Exhausted(cfg, s, id) && Enabled(cfg, s, a)
    ensures Exhausted(cfg, Next(cfg, s, a), id)
    ensures id in Next(cfg, s, a).delivered <==> id in s.delivered
  {
    if a.Send? {
      assert CopiesExhausted(cfg, s.relays[a.r].batch, id);
    }
  }

  lemma HopelessStays(cfg: Config, s: State, a: Action, id: Id)
    requires Inv(s) && Hopeless(cfg, s, id) && Enabled(cfg, s, a)
    ensures Hopeless(cfg, Next(cfg, s, a), id)
    ensures id in Next(cfg, s, a).delivered <==> id in s.delivered
  {
    if !cfg.resetsFailed && GivenUp(s, id) {
      GivenUpStays(cfg, s, a, id);
    } else if cfg.batchSize == 0 && HeldByNone(s, id) {
      HeldByNoneStays(cfg, s, a, id);
    } else {
      ExhaustedStays(cfg, s, a, id);
    }
  }

  lemma {:induction false} HopelessForever(cfg: Config, s: State, run: seq<Action>, id: Id)
    requires Inv(s) && Hopeless(cfg, s, id) && IsRun(cfg, s, run)
    ensures Hopeless(cfg, After(cfg, s, run), id)
    ensures id in After(cfg, s, run).delivered <==> id in s.delivered
    decreases |run|
  {
    if run != [] {
      InvStep(cfg, s, run[0]);
      HopelessStays(cfg, s, run[0], id);
      HopelessForever(cfg, Next(cfg, s, run[0]), run[1..], id);
    }
  }

  lemma {:induction false} GivenUpForever(cfg: Config, s: State, run: seq<Action>, id: Id)
    requires !cfg.resetsFailed && Inv(s) && GivenUp(s, id) && IsRun(cfg, s, run)
    ensures GivenUp(After(cfg, s, run), id)
    ensures id in After(cfg, s, run).delivered <==> id in s.delivered
    decreases |run|
  {
    if run != [] {
      InvStep(cfg, s, run[0]);
      GivenUpStays(cfg, s, run[0], id);
      GivenUpForever(cfg, Next(cfg, s, run[0]), run[1..], id);
    }
  }

  ghost predicate CanStillArrive(cfg: Config, s: State, id: Id) {
    exists run :: IsRun(cfg, s, run) && id in After(cfg, s, run).delivered
  }

  lemma {:induction false} RunAppend(cfg: Config, s: State, r1: seq<Action>, r2: seq<Action>)
    requires IsRun(cfg, s, r1) && IsRun(cfg, After(cfg, s, r1), r2)
    ensures IsRun(cfg, s, r1 + r2) && After(cfg, s, r1 + r2) == After(cfg, After(cfg, s, r1), r2)
    decreases |r1|
  {
    if r1 == [] {
      assert r1 + r2 == r2;
    } else {
      assert (r1 + r2)[1..] == r1[1..] + r2;
      RunAppend(cfg, Next(cfg, s, r1[0]), r1[1..], r2);
    }
  }

  lemma Extend(cfg: Config, s: State, run: seq<Action>, a: Action)
    requires IsRun(cfg, s, run) && Enabled(cfg, After(cfg, s, run), a)
    ensures IsRun(cfg, s, run + [a]) && After(cfg, s, run + [a]) == Next(cfg, After(cfg, s, run), a)
  {
    var t := After(cfg, s, run);
    var n := Next(cfg, t, a);
    assert [a][1..] == [];
    assert IsRun(cfg, n, []) && After(cfg, n, []) == n;
    assert IsRun(cfg, t, [a]) && After(cfg, t, [a]) == After(cfg, n, [a][1..]);
    RunAppend(cfg, s, run, [a]);
  }

  /** The publisher refuses a message once, and its relay finishes the poll: the message is given up. */
  lemma OneFailureGivesUp(cfg: Config, id: Id) returns (run: seq<Action>)
    requires cfg.batchSize >= 1
    ensures IsRun(cfg, Init(), run)
    ensures var s := After(cfg, Init(), run);
            Inv(s) && GivenUp(s, id) && id !in s.delivered && s.rows[id].retries == 1
  {
    var s := Init();
    run := [];
    Extend(cfg, s, run, Save({id}));
    run := run + [Save({id})];
    assert After(cfg, s, run).rows == map[id := Row(Pending, 0)];
    Extend(cfg, s, run, Fetch(0, [id]));
    run := run + [Fetch(0, [id])];
    assert MessagesOf(map[id := Row(Pending, 0)], [id]) == [Message(id, 0)];
    assert After(cfg, s, run).relays == map[0 := Sending([Message(id, 0)], 0, [], [])];
    assert After(cfg, s, run).rows == map[id := Row(Processing, 0)];
    Extend(cfg, s, run, Send(0, false, false));
    run := run + [Send(0, false, false)];
    Extend(cfg, s, run, MarkFailed(0, true));
    run := run + [MarkFailed(0, true)];
    assert After(cfg, s, run).rows == map[id := Row(Failed, 1)];
    Extend(cfg, s, run, MarkSent(0, true));
    run := run + [MarkSent(0, true)];
    RunKeeps(cfg, s, run);
  }

  lemma ArrivesAfterReset(cfg: Config, s: State, id: Id) returns (run: seq<Action>)
    requires id in s.rows && s.rows[id].retries < cfg.maxRetries && cfg.batchSize >= 1
    requires Resettable(cfg, s.rows[id]) || s.rows[id].status == Pending
    ensures IsRun(cfg, s, run) && id in After(cfg, s, run).delivered
  {
    FreshExists(s.relays.Keys);
    var r: nat :| r != 0 && r !in s.relays.Keys;
    run := [];
    if s.rows[id].status != Pending {
      Extend(cfg, s, run, ResetStale({id}));
      run := run + [ResetStale({id})];
    }
    Extend(cfg, s, run, Fetch(r, [id]));
    run := run + [Fetch(r, [id])];
    Extend(cfg, s, run, Send(r, true, true));
    run := run + [Send(r, true, true)];
  }

  lemma UnheldAtLimit(cfg: Config, s: State, id: Id)
    requires Inv(s) && HeldByNone(s, id) && id in s.rows && s.rows[id].retries >= cfg.maxRetries
    ensures Exhausted(cfg, s, id)
  {
    forall r | r in s.relays && !s.relays[r].Idle? ensures CopiesExhausted(cfg, s.relays[r].batch, id) {
      assert !Holds(s.relays[r], id);
      assert forall i :: 0 <= i < |s.relays[r].batch| ==> IdsOf(s.relays[r].batch)[i] == s.relays[r].batch[i].id;
    }
  }

  /** When an undelivered message that no relay has, in whatever status, can still reach the publisher:
      anything is fetched at all, it is below the retry limit, and it is not Failed, unless `ResetStale`
      resets Failed rows too. So one that a crashed relay left Processing can. */
  lemma ArrivesIffNotGivenUp(cfg: Config, s: State, id: Id)
    requires Inv(s) && id in s.rows && HeldByNone(s, id) && id !in s.delivered
    ensures CanStillArrive(cfg, s, id)
            <==> cfg.batchSize >= 1 && s.rows[id].retries < cfg.maxRetries
                 && (s.rows[id].status.Failed? ==> cfg.resetsFailed)
  {
    if cfg.batchSize >= 1 && s.rows[id].retries < cfg.maxRetries && (s.rows[id].status.Failed? ==> cfg.resetsFailed) {
      var run := ArrivesAfterReset(cfg, s, id);
    } else {
      if s.rows[id].retries >= cfg.maxRetries {
        UnheldAtLimit(cfg, s, id);
      }
      forall run | IsRun(cfg, s, run) ensures id !in After(cfg, s, run).delivered {
        HopelessForever(cfg, s, run, id);
      }
    }
  }

  /** A relay that crashes with a message in its batch, before sending it, leaves it Processing, with
      no relay; and it can still arrive. */
  lemma CrashIsRecovered(cfg: Config, id: Id) returns (run: seq<Action>)
    requires cfg.batchSize >= 1 && cfg.maxRetries >= 1
    ensures IsRun(cfg, Init(), run) && run != [] && run[|run| - 1].Crash?
    ensures var s := After(cfg, Init(), run);
            && id in s.rows && s.rows[id].status == Processing && HeldByNone(s, id) && id !in s.delivered
            && CanStillArrive(cfg, s, id)
  {
    var s := Init();
    run := [];
    Extend(cfg, s, run, Save({id}));
    run := run + [Save({id})];
    assert After(cfg, s, run).rows == map[id := Row(Pending, 0)];
    Extend(cfg, s, run, Fetch(0, [id]));
    run := run + [Fetch(0, [id])];
    assert After(cfg, s, run).rows == map[id := Row(Processing, 0)];
    Extend(cfg, s, run, Crash(0));
    run := run + [Crash(0)];
    RunKeeps(cfg, s, run);
    ArrivesIffNotGivenUp(cfg, After(cfg, s, run), id);
  }

  /** A message whose delivery has failed can still reach the publisher exactly if `ResetStale` resets
      Failed rows (and the message is below the retry limit, and anything is fetched at all). The
      state diagram of the package and the store's interface say that it does; the GORM store does
      not, so there a single failure is final. */
  lemma RetriedIffResetCoversFailed(cfg: Config, s: State, id: Id)
    requires Inv(s) && GivenUp(s, id) && id !in s.delivered
    ensures CanStillArrive(cfg, s, id)
            <==> cfg.resetsFailed && s.rows[id].retries < cfg.maxRetries && cfg.batchSize >= 1
  {
    ArrivesIffNotGivenUp(cfg, s, id);
  }

  // ---------- A poll is a run ----------

  function With(s: State, r: nat, rows: map<Id, Row>, p: Relay, delivered: set<Id>): State {
    s.(rows := rows, relays := s.relays[r := p], delivered := delivered)
  }

  lemma Overwritten(relays: map<nat, Relay>, r: nat, p: Relay, q: Relay)
    ensures relays[r := p][r := q] == relays[r := q]
  {
  }

  lemma SendOn(cfg: Config, s: State, r: nat, rows: map<Id, Row>, p: Relay, delivered: set<Id>, ok: bool)
    requires p.Sending? && p.next < |p.batch| && (ok ==> p.batch[p.next].retries < cfg.maxRetries)
    ensures var id := p.batch[p.next].id;
            && Enabled(cfg, With(s, r, rows, p, delivered), Send(r, ok, ok))
            && Next(cfg, With(s, r, rows, p, delivered), Send(r, ok, ok))
            == if ok then With(s, r, rows, Sending(p.batch, p.next + 1, p.sent + [id], p.failed), delivered + {id})
               else With(s, r, rows, Failing(p.batch, p.next, p.sent, p.failed), delivered)
  {
    var id := p.batch[p.next].id;
    Overwritten(s.relays, r, p, Sending(p.batch, p.next + 1, p.sent + [id], p.failed));
    Overwritten(s.relays, r, p, Failing(p.batch, p.next, p.sent, p.failed));
  }

  lemma MarkOn(cfg: Config, s: State, r: nat, rows: map<Id, Row>, p: Relay, delivered: set<Id>)
    requires p.Failing? && p.next < |p.batch|
    ensures var id := p.batch[p.next].id;
            && Enabled(cfg, With(s, r, rows, p, delivered), MarkFailed(r, true))
            && Next(cfg, With(s, r, rows, p, delivered), MarkFailed(r, true))
            == With(s, r, MarkedFailed(rows, id), Sending(p.batch, p.next + 1, p.sent, p.failed + [id]), delivered)
  {
    Overwritten(s.relays, r, p, Sending(p.batch, p.next + 1, p.sent, p.failed + [p.batch[p.next].id]));
  }

  lemma EndOn(cfg: Config, s: State, r: nat, rows: map<Id, Row>, p: Relay, delivered: set<Id>)
    requires p.Sending? && p.next == |p.batch|
    ensures Enabled(cfg, With(s, r, rows, p, delivered), MarkSent(r, true))
    ensures Next(cfg, With(s, r, rows, p, delivered), MarkSent(r, true))
         == With(s, r, MarkedSent(rows, p.sent), Idle, delivered)
  {
    Overwritten(s.relays, r, p, Idle);
  }

  function SetOf(ids: seq<Id>): set<Id> { set id | id in ids }

  /** The relay after `i` messages of its batch, the rows and the deliveries. */
  function PolledUpTo(cfg: Config, s: State, r: nat, wanted: seq<Id>, accepts: Id -> bool, i: nat): State
    requires (forall k :: 0 <= k < |wanted| ==> wanted[k] in s.rows) && i <= |wanted|
  {
    var batch := MessagesOf(s.rows, wanted);
    var sent, failed := IdsWith(cfg, batch[..i], accepts, true), IdsWith(cfg, batch[..i], accepts, false);
    With(s, r, AllMarkedFailed(Fetched(s.rows, wanted), failed), Sending(batch, i, sent, failed),
         s.delivered + SetOf(sent))
  }

  lemma UpToNext(cfg: Config, s: State, r: nat, wanted: seq<Id>, accepts: Id -> bool, i: nat, ok: bool)
    requires (forall k :: 0 <= k < |wanted| ==> wanted[k] in s.rows) && i < |wanted|
    requires ok == Delivers(cfg, Message(wanted[i], s.rows[wanted[i]].retries), accepts)
    ensures var batch, id := MessagesOf(s.rows, wanted), wanted[i];
            var sent, failed := IdsWith(cfg, batch[..i], accepts, true), IdsWith(cfg, batch[..i], accepts, false);
            var rows, delivered := AllMarkedFailed(Fetched(s.rows, wanted), failed), s.delivered + SetOf(sent);
            PolledUpTo(cfg, s, r, wanted, accepts, i + 1)
            == if ok then With(s, r, rows, Sending(batch, i + 1, sent + [id], failed), delivered + {id})
               else With(s, r, MarkedFailed(rows, id), Sending(batch, i + 1, sent, failed + [id]), delivered)
  {
    var batch := MessagesOf(s.rows, wanted);
    SortedNext(cfg, batch, accepts, i, true);
    SortedNext(cfg, batch, accepts, i, false);
    var sent, failed := IdsWith(cfg, batch[..i], accepts, true), IdsWith(cfg, batch[..i], accepts, false);
    if ok {
      assert s.delivered + SetOf(sent + [wanted[i]]) == s.delivered + SetOf(sent) + {wanted[i]};
    } else {
      assert (failed + [wanted[i]])[..|failed|] == failed;
    }
  }

  /** One message more, in one step or in two. */
  lemma PollNext(cfg: Config, s: State, r: nat, wanted: seq<Id>, accepts: Id -> bool, i: nat, ok: bool)
    requires (forall k :: 0 <= k < |wanted| ==> wanted[k] in s.rows) && i < |wanted|
    requires ok == Delivers(cfg, Message(wanted[i], s.rows[wanted[i]].retries), accepts)
    ensures var u, v := PolledUpTo(cfg, s, r, wanted, accepts, i), PolledUpTo(cfg, s, r, wanted, accepts, i + 1);
            && Enabled(cfg, u, Send(r, ok, ok))
            && var t := Next(cfg, u, Send(r, ok, ok));
               if ok then t == v
               else Enabled(cfg, t, MarkFailed(r, true)) && Next(cfg, t, MarkFailed(r, true)) == v
  {
    UpToNext(cfg, s, r, wanted, accepts, i, ok);
    var batch := MessagesOf(s.rows, wanted);
    var sent, failed := IdsWith(cfg, batch[..i], accepts, true), IdsWith(cfg, batch[..i], accepts, false);
    var rows, delivered := AllMarkedFailed(Fetched(s.rows, wanted), failed), s.delivered + SetOf(sent);
    SendOn(cfg, s, r, rows, Sending(batch, i, sent, failed), delivered, ok);
    if !ok {
      MarkOn(cfg, s, r, rows, Failing(batch, i, sent, failed), delivered);
    }
  }

  lemma FetchedNext(cfg: Config, s: State, r: nat, wanted: seq<Id>, accepts: Id -> bool)
    requires Enabled(cfg, s, Fetch(r, wanted))
    ensures Next(cfg, s, Fetch(r, wanted)) == PolledUpTo(cfg, s, r, wanted, accepts, 0)
  {
    assert s.delivered + {} == s.delivered;
  }

  lemma {:induction false} PollRounds(cfg: Config, s: State, r: nat, wanted: seq<Id>, accepts: Id -> bool, i: nat)
    returns (run: seq<Action>)
    requires Enabled(cfg, s, Fetch(r, wanted)) && i <= |wanted|
    ensures IsRun(cfg, s, run) && After(cfg, s, run) == PolledUpTo(cfg, s, r, wanted, accepts, i)
  {
    if i == 0 {
      FetchedNext(cfg, s, r, wanted, accepts);
      Extend(cfg, s, [], Fetch(r, wanted));
      run := [] + [Fetch(r, wanted)];
    } else {
      run := PollRounds(cfg, s, r, wanted, accepts, i - 1);
      var ok := Delivers(cfg, Message(wanted[i - 1], s.rows[wanted[i - 1]].retries), accepts);
      PollNext(cfg, s, r, wanted, accepts, i - 1, ok);
      Extend(cfg, s, run, Send(r, ok, ok));
      run := run + [Send(r, ok, ok)];
      if !ok {
        Extend(cfg, s, run, MarkFailed(r, true));
        run := run + [MarkFailed(r, true)];
      }
    }
  }

  /** The end of the poll. */
  lemma PollEnds(cfg: Config, s: State, r: nat, wanted: seq<Id>, accepts: Id -> bool,
                 sentIds: seq<Id>, failedIds: seq<Id>, rows': map<Id, Row>)
    requires (forall i :: 0 <= i < |wanted| ==> wanted[i] in s.rows) && Distinct(wanted)
    requires PolledTo(cfg, s.rows, wanted, accepts, sentIds, failedIds, rows')
    ensures var u := PolledUpTo(cfg, s, r, wanted, accepts, |wanted|);
            && Enabled(cfg, u, MarkSent(r, true))
            && Next(cfg, u, MarkSent(r, true))
            == With(s, r, rows', Idle, s.delivered + SetOf(sentIds))
  {
    var batch := MessagesOf(s.rows, wanted);
    assert batch[..|wanted|] == batch;
    var sent, failed := IdsWith(cfg, batch, accepts, true), IdsWith(cfg, batch, accepts, false);
    var rows := AllMarkedFailed(Fetched(s.rows, wanted), failed);
    EndOn(cfg, s, r, rows, Sending(batch, |wanted|, sent, failed), s.delivered + SetOf(sent));
    PollMarksEachRow(cfg, s.rows, wanted, accepts);
    SameOutcome(cfg, s.rows, wanted, accepts, sent, failed,
                MarkedSent(rows, sent), sentIds, failedIds, rows');
  }

  /** The outcome of a poll is told completely. */
  lemma SameOutcome(cfg: Config, rows: map<Id, Row>, wanted: seq<Id>, accepts: Id -> bool,
                    sent1: seq<Id>, failed1: seq<Id>, rows1: map<Id, Row>,
                    sent2: seq<Id>, failed2: seq<Id>, rows2: map<Id, Row>)
    requires (forall i :: 0 <= i < |wanted| ==> wanted[i] in rows) && Distinct(wanted)
    requires PolledTo(cfg, rows, wanted, accepts, sent1, failed1, rows1)
    requires PolledTo(cfg, rows, wanted, accepts, sent2, failed2, rows2)
    ensures rows1 == rows2 && SetOf(sent1) == SetOf(sent2)
  {
    assert rows1.Keys == rows2.Keys;
    assert forall id :: id in rows ==> rows1[id] == rows2[id];
  }

  /** Whatever a poll comes to, it is a run of the steps of its relay with those answers: so all that
      holds of every run holds of polls. */
  lemma PollIsRun(cfg: Config, s: State, r: nat, wanted: seq<Id>, accepts: Id -> bool,
                  sentIds: seq<Id>, failedIds: seq<Id>, rows': map<Id, Row>)
    returns (run: seq<Action>)
    requires Enabled(cfg, s, Fetch(r, wanted)) && PolledTo(cfg, s.rows, wanted, accepts, sentIds, failedIds, rows')
    ensures IsRun(cfg, s, run)
    ensures After(cfg, s, run) == s.(rows := rows', relays := s.relays[r := Idle],
                                     delivered := s.delivered + SetOf(sentIds))
  {
    run := PollRounds(cfg, s, r, wanted, accepts, |wanted|);
    PollEnds(cfg, s, r, wanted, accepts, sentIds, failedIds, rows');
    Extend(cfg, s, run, MarkSent(r, true));
    run := run + [MarkSent(r, true)];
  }

  /** In any reachable state, a poll loses no message: what the publisher has not taken, now or before,
      is still in the table and not marked Sent. */
  lemma PollLosesNothing(cfg: Config, before: seq<Action>, r: nat, wanted: seq<Id>, accepts: Id -> bool,
                         sentIds: seq<Id>, failedIds: seq<Id>, rows': map<Id, Row>, id: Id)
    requires IsRun(cfg, Init(), before)
    requires var s := After(cfg, Init(), before);
             && Enabled(cfg, s, Fetch(r, wanted)) && PolledTo(cfg, s.rows, wanted, accepts, sentIds, failedIds, rows')
             && id in s.saved && id !in s.delivered && !(id in wanted && accepts(id))
    ensures id in rows' && rows'[id].status != Sent
  {
    var s := After(cfg, Init(), before);
    var run := PollIsRun(cfg, s, r, wanted, accepts, sentIds, failedIds, rows');
    RunAppend(cfg, Init(), before, run);
    NothingLost(cfg, before + run, id);
  }
}
