/** The buffered prediction log of serving/internal/predictions/store.go: producers offer records to
    a bounded channel without blocking, one flusher batches them, COPYs each batch with one retry,
    and drains the channel before it exits. */
module PredictionStore {
  import opened Options
  import opened Rounding

  /** A record; its id is the primary key of the predictions table. */
  datatype Record = Record(id: nat, modelVersion: string)

  /** What the database does with one COPY: commit and say so, refuse, or commit and lose the reply. */
  datatype Reply = Committed | Refused | ReplyLost

  /** A batch the flusher is done with: the reply to its first COPY and to the second, if there was
      one, whether an attempt reported success, and whether its rows are in the table. */
  datatype Finished = Finished(batch: seq<Record>, first: Reply, second: Option<Reply>, reported: bool, stored: bool)

  /** What the flusher does once the batch in hand is finished. */
  datatype Next = Resume | KeepDraining | Exit

  datatype Flusher =
    | Select
    | Draining
    | Flushing(next: Next)                // before the first COPY
    | Retrying(next: Next, first: Reply)  // before the second
    | Exited

  datatype State = State(
    capacity: nat,
    ch: seq<Record>,
    batch: seq<Record>,
    flusher: Flusher,
    done: bool,
    table: seq<Record>,
    accepted: seq<Record>,
    dropped: seq<Record>,
    finished: seq<Finished>,
    flushErrors: nat)

  datatype Event =
    | Accept(r: Record)      // Log: the channel has room
    | HandOff(r: Record)     // Log: the flusher is waiting on the empty channel
    | Drop(r: Record)        // Log: ErrBufferFull
    | Cancel(r: Record)      // Log: the caller's context is done
    | Receive
    | Tick
    | Close
    | SeeDone
    | DrainReceive
    | DrainEmpty
    | Copy(reply: Reply)

  const DRAIN_CHUNK := 1000

  function Init(capacity: nat): State {
    State(capacity, [], [], Select, false, [], [], [], [], 0)
  }

  predicate Enabled(s: State, e: Event) {
    match e
    case Accept(_) => |s.ch| < s.capacity
    case HandOff(_) => s.flusher.Select? && s.ch == []
    case Drop(_) => |s.ch| >= s.capacity
    case Cancel(_) => true
    case Receive => s.flusher.Select? && s.ch != []
    case Tick => s.flusher.Select?
    case Close => !s.done
    case SeeDone => s.flusher.Select? && s.done
    case DrainReceive => s.flusher.Draining? && s.ch != []
    case DrainEmpty => s.flusher.Draining? && s.ch == []
    case Copy(_) => s.flusher.Flushing? || s.flusher.Retrying?
  }

  predicate Distinct(rs: seq<Record>) {
    forall i, j :: 0 <= i < j < |rs| ==> rs[i].id != rs[j].id
  }

  /** One COPY: all rows or none; a repeated key is refused whatever the network does. */
  predicate Commits(table: seq<Record>, batch: seq<Record>, reply: Reply) {
    !reply.Refused? && Distinct(table + batch)
  }

  function AfterFlush(next: Next): Flusher {
    match next
    case Resume => Select
    case KeepDraining => Draining
    case Exit => Exited
  }

  /** How a batch ends when its last COPY got this reply. */
  function Ending(s: State, reply: Reply): Finished
    requires s.flusher.Flushing? || s.flusher.Retrying?
  {
    var commits := Commits(s.table, s.batch, reply);
    if s.flusher.Flushing? then Finished(s.batch, reply, None, commits && reply.Committed?, commits)
    else Finished(s.batch, s.flusher.first, Some(reply), commits && reply.Committed?, commits || s.flusher.first.ReplyLost?)
  }

  predicate GivesUp(s: State, f: Finished) {
    s.flusher.Retrying? || f.reported
  }

  /** The batch in hand is finished: the flusher goes on with an empty one. */
  function FinishBatch(s: State, table: seq<Record>, next: Next, f: Finished): State {
    s.(table := table, batch := [], flusher := AfterFlush(next), finished := s.finished + [f],
       flushErrors := s.flushErrors + if f.reported then 0 else 1)
  }

  function ApplyCopy(s: State, reply: Reply): State
    requires s.flusher.Flushing? || s.flusher.Retrying?
  {
    var table := if Commits(s.table, s.batch, reply) then s.table + s.batch else s.table;
    var f := Ending(s, reply);
    if GivesUp(s, f) then FinishBatch(s, table, s.flusher.next, f)
    else s.(table := table, flusher := Retrying(s.flusher.next, reply))
  }

  function Apply(s: State, e: Event): State
    requires Enabled(s, e)
  {
    match e
    case Accept(r) => s.(ch := s.ch + [r], accepted := s.accepted + [r])
    case HandOff(r) => s.(batch := s.batch + [r], accepted := s.accepted + [r])
    case Drop(r) => s.(dropped := s.dropped + [r])
    case Cancel(r) => s
    case Receive => s.(ch := s.ch[1..], batch := s.batch + [s.ch[0]])
    case Tick => if s.batch == [] then s else s.(flusher := Flushing(Resume))
    case Close => s.(done := true)
    case SeeDone => s.(flusher := Draining)
    case DrainReceive =>
      var batch := s.batch + [s.ch[0]];
      s.(ch := s.ch[1..], batch := batch,
         flusher := if |batch| >= DRAIN_CHUNK then Flushing(KeepDraining) else Draining)
    case DrainEmpty => s.(flusher := if s.batch == [] then Exited else Flushing(Exit))
    case Copy(reply) => ApplyCopy(s, reply)
  }

  /** The state after the events, if each was enabled in its turn. */
  function Run(s: State, es: seq<Event>): Option<State> {
    if es == [] then Some(s)
    else
      match Run(s, es[..|es|-1])
      case None => None
      case Some(m) => if Enabled(m, es[|es|-1]) then Some(Apply(m, es[|es|-1])) else None
  }

  // ---------- what the finished batches amount to ----------

  function Handled(fs: seq<Finished>): seq<Record> {
    if fs == [] then [] else Handled(fs[..|fs|-1]) + fs[|fs|-1].batch
  }

  function Stored(fs: seq<Finished>): seq<Record> {
    if fs == [] then [] else Stored(fs[..|fs|-1]) + if fs[|fs|-1].stored then fs[|fs|-1].batch else []
  }

  function Failures(fs: seq<Finished>): nat {
    if fs == [] then 0 else Failures(fs[..|fs|-1]) + if fs[|fs|-1].reported then 0 else 1
  }

  lemma Snoc(fs: seq<Finished>, f: Finished)
    ensures Handled(fs + [f]) == Handled(fs) + f.batch
    ensures Stored(fs + [f]) == Stored(fs) + if f.stored then f.batch else []
    ensures Failures(fs + [f]) == Failures(fs) + if f.reported then 0 else 1
  {
    assert (fs + [f])[..|fs|] == fs;
  }

  /** How the replies decide the two verdicts on a batch of fresh ids. */
  predicate Verdict(f: Finished) {
    && f.batch != []
    && (f.second.None? <==> f.first.Committed?)
    && (f.reported <==> f.first.Committed? || (f.first.Refused? && f.second == Some(Committed)))
    && (f.stored <==> !(f.first.Refused? && f.second == Some(Refused)))
  }

  /** The rows of the batch in hand are already in the table: its first COPY lost its reply. */
  predicate InHandStored(s: State) {
    s.flusher.Retrying? && s.flusher.first.ReplyLost?
  }

  /** Order and accounting. */
  ghost predicate Inv(s: State) {
    && s.accepted == Handled(s.finished) + s.batch + s.ch
    && |s.ch| <= s.capacity
    && s.flushErrors == Failures(s.finished)
    && (s.flusher.Flushing? || s.flusher.Retrying? ==> s.batch != [])
    && (s.flusher.Draining? || s.flusher.Exited? ==> s.done)
    && ((s.flusher.Flushing? || s.flusher.Retrying?) && !s.flusher.next.Resume? ==> s.done)
    && (s.flusher.Exited? ==> s.batch == [])
  }

  /** The table against the batches, when the accepted ids are distinct. */
  ghost predicate TableInv(s: State) {
    && s.table == Stored(s.finished) + (if InHandStored(s) then s.batch else [])
    && (forall f :: f in s.finished ==> Verdict(f))
    && (s.flusher.Retrying? ==> !s.flusher.first.Committed?)
  }

  // ---------- sub-sequences keep distinct ids ----------

  function Ids(rs: seq<Record>): set<nat> {
    set r | r in rs :: r.id
  }

  lemma {:induction false} StoredFromHandled(fs: seq<Finished>)
    requires Distinct(Handled(fs))
    ensures Distinct(Stored(fs)) && Ids(Stored(fs)) <= Ids(Handled(fs))
    decreases fs
  {
    if fs != [] {
      var init, last := fs[..|fs|-1], fs[|fs|-1];
      DistinctAppend(Handled(init), last.batch);
      StoredFromHandled(init);
      IdsAppend(Handled(init), last.batch);
      if last.stored {
        AppendDistinct(Stored(init), last.batch);
        IdsAppend(Stored(init), last.batch);
      } else {
        assert Stored(fs) == Stored(init);
      }
    }
  }

  lemma IdsAppend(xs: seq<Record>, ys: seq<Record>)
    ensures Ids(xs + ys) == Ids(xs) + Ids(ys)
  {
  }

  lemma DistinctAppend(xs: seq<Record>, ys: seq<Record>)
    requires Distinct(xs + ys)
    ensures Distinct(xs) && Distinct(ys) && Ids(xs) !! Ids(ys)
  {
    assert forall i :: 0 <= i < |xs| ==> (xs + ys)[i] == xs[i];
    assert forall j :: 0 <= j < |ys| ==> (xs + ys)[|xs| + j] == ys[j];
  }

  lemma AppendDistinct(xs: seq<Record>, ys: seq<Record>)
    requires Distinct(xs) && Distinct(ys) && Ids(xs) !! Ids(ys)
    ensures Distinct(xs + ys)
  {
    forall i, j | 0 <= i < j < |xs + ys| ensures (xs + ys)[i].id != (xs + ys)[j].id {
      if i < |xs| <= j {
        assert xs[i].id in Ids(xs) && ys[j - |xs|].id in Ids(ys);
      }
    }
  }

  /** With distinct accepted ids, the key never refuses a first COPY, and refuses a second one
      exactly when the first lost its reply. */
  lemma KeyConflictOnlyWithItself(s: State)
    requires Inv(s) && TableInv(s) && Distinct(s.accepted) && s.batch != []
    ensures Distinct(s.table + s.batch) <==> !InHandStored(s)
  {
    DistinctAppend(Handled(s.finished) + s.batch, s.ch);
    DistinctAppend(Handled(s.finished), s.batch);
    StoredFromHandled(s.finished);
    if InHandStored(s) {
      var all := s.table + s.batch;
      assert all[|Stored(s.finished)|] == s.batch[0] && all[|s.table|] == s.batch[0];
    } else {
      AppendDistinct(s.table, s.batch);
    }
  }

  lemma StepKeepsInv(s: State, e: Event)
    requires Inv(s) && Enabled(s, e)
    ensures Inv(Apply(s, e))
  {
    if e.Copy? {
      CopyKeepsInv(s, e.reply);
    } else {
      var h := Handled(s.finished);
      if e.Receive? || e.DrainReceive? {
        assert h + (s.batch + [s.ch[0]]) + s.ch[1..] == h + s.batch + s.ch;
      } else if e.Accept? {
        assert h + s.batch + (s.ch + [e.r]) == h + s.batch + s.ch + [e.r];
      } else if e.HandOff? {
        assert h + (s.batch + [e.r]) + [] == h + s.batch + [] + [e.r];
      }
    }
  }

  lemma CopyKeepsInv(s: State, reply: Reply)
    requires Inv(s) && (s.flusher.Flushing? || s.flusher.Retrying?)
    ensures Inv(ApplyCopy(s, reply))
  {
    var table := if Commits(s.table, s.batch, reply) then s.table + s.batch else s.table;
    FinishKeepsInv(s, table, Ending(s, reply));
    hide FinishBatch, Handled, Failures, Commits;
  }

  lemma FinishKeepsInv(s: State, table: seq<Record>, f: Finished)
    requires Inv(s) && (s.flusher.Flushing? || s.flusher.Retrying?) && f.batch == s.batch
    ensures Inv(FinishBatch(s, table, s.flusher.next, f))
  {
    Snoc(s.finished, f);
  }

  lemma StepKeepsTableInv(s: State, e: Event)
    requires Inv(s) && TableInv(s) && Enabled(s, e) && Distinct(s.accepted)
    ensures TableInv(Apply(s, e))
  {
    if e.Copy? {
      KeyConflictOnlyWithItself(s);
      CopyKeepsTableInv(s, e.reply);
    }
  }

  lemma CopyKeepsTableInv(s: State, reply: Reply)
    requires TableInv(s) && (s.flusher.Flushing? || s.flusher.Retrying?) && s.batch != []
    requires Distinct(s.table + s.batch) <==> !InHandStored(s)
    ensures TableInv(ApplyCopy(s, reply))
  {
    var table := if Commits(s.table, s.batch, reply) then s.table + s.batch else s.table;
    var f := Ending(s, reply);
    if GivesUp(s, f) {
      FinishKeepsTableInv(s, table, f);
    }
    hide Distinct, Stored, Verdict;
  }

  lemma FinishKeepsTableInv(s: State, table: seq<Record>, f: Finished)
    requires TableInv(s) && (s.flusher.Flushing? || s.flusher.Retrying?) && Verdict(f) && f.batch == s.batch
    requires table == Stored(s.finished) + if f.stored then s.batch else []
    ensures TableInv(FinishBatch(s, table, s.flusher.next, f))
  {
    Snoc(s.finished, f);
  }

  lemma {:induction false} ReachableInv(capacity: nat, es: seq<Event>)
    requires Run(Init(capacity), es).Some?
    ensures var s := Run(Init(capacity), es).value;
            Inv(s) && s.capacity == capacity && Distinct(s.table) && (Distinct(s.accepted) ==> TableInv(s))
    decreases es
  {
    if es != [] {
      ReachableInv(capacity, es[..|es|-1]);
      var m, e := Run(Init(capacity), es[..|es|-1]).value, es[|es|-1];
      StepKeepsInv(m, e);
      StepGrows(m, e);
      if Distinct(Apply(m, e).accepted) {
        StepKeepsTableInv(m, e);
      }
    }
  }

  lemma StepGrows(s: State, e: Event)
    requires Enabled(s, e)
    ensures Apply(s, e).capacity == s.capacity
    ensures Distinct(Apply(s, e).accepted) ==> Distinct(s.accepted)
    ensures Distinct(s.table) ==> Distinct(Apply(s, e).table)
  {
    if (e.Accept? || e.HandOff?) && Distinct(s.accepted + [e.r]) {
      DistinctAppend(s.accepted, [e.r]);
    }
  }

  // ---------- main results ----------

  /** In every reachable state the accepted records, in acceptance order, are the finished batches,
      then the batch in hand, then the channel, which never exceeds its capacity. */
  lemma AcceptedInOrder(capacity: nat, es: seq<Event>)
    requires Run(Init(capacity), es).Some?
    ensures var s := Run(Init(capacity), es).value;
            && s.accepted == Handled(s.finished) + s.batch + s.ch && |s.ch| <= capacity
            && s.flushErrors == |Unreported(s.finished)|
            && (s.flusher.Exited? ==> s.batch == [])
  {
    ReachableInv(capacity, es);
    FailuresCounted(Run(Init(capacity), es).value.finished);
  }

  /** The positions of the batches not reported stored. */
  function Unreported(fs: seq<Finished>): set<int> {
    set i | 0 <= i < |fs| && !fs[i].reported
  }

  lemma {:induction false} FailuresCounted(fs: seq<Finished>)
    ensures Failures(fs) == |Unreported(fs)|
    decreases fs
  {
    if fs != [] {
      var init, last := fs[..|fs|-1], |fs| - 1;
      FailuresCounted(init);
      assert Unreported(fs) == if fs[last].reported then Unreported(init) else Unreported(init) + {last};
    }
  }

  /** A tick on a non-empty batch leads to one COPY, or two, of exactly that batch, after which it alone has
      been finished; the rows are stored at most once, and a tick on an empty batch does nothing. */
  lemma TickFlushesTheBatch(s: State, first: Reply, second: Reply) returns (es: seq<Event>, m: State)
    requires s.flusher.Select?
    ensures Enabled(s, Tick) && (s.batch == [] ==> Apply(s, Tick) == s)
    ensures s.batch != [] ==>
              && es == (if first.Committed? && Distinct(s.table + s.batch) then [Tick, Copy(first)] else [Tick, Copy(first), Copy(second)])
              && Run(s, es) == Some(m)
              && |m.finished| == |s.finished| + 1 && m.finished[..|s.finished|] == s.finished
              && m.finished[|s.finished|].batch == s.batch && m.batch == [] && m.flusher.Select? && m.ch == s.ch
    ensures s.batch != [] && Distinct(s.table + s.batch) ==>
              m.table == if first.Refused? && second.Refused? then s.table else s.table + s.batch
  {
    es, m := [], s;
    if s.batch != [] {
      RunOne(s, Tick);
      hide Run;
      FirstCopy(s, first);
      es, m := [Tick], Apply(s, Tick);
      es := RunPush(s, es, m, Copy(first));
      m := Apply(m, Copy(first));
      if m.flusher.Retrying? {
        SecondCopy(m, second);
        es := RunPush(s, es, m, Copy(second));
        m := Apply(m, Copy(second));
      }
      StoredOnce(s.table, s.batch);
      hide Apply, Enabled, Distinct;
    }
  }

  lemma FirstCopy(s: State, reply: Reply)
    requires s.flusher.Select? && s.batch != []
    ensures var t, fits := Apply(s, Tick), Distinct(s.table + s.batch);
            && Enabled(t, Copy(reply)) && t == s.(flusher := Flushing(Resume))
            && var m := Apply(t, Copy(reply));
               && m.ch == s.ch && m.table == (if !reply.Refused? && fits then s.table + s.batch else s.table)
               && (if reply.Committed? && fits
                   then m.flusher.Select? && m.batch == [] && |m.finished| == |s.finished| + 1
                        && m.finished[..|s.finished|] == s.finished && m.finished[|s.finished|].batch == s.batch
                   else m.flusher == Retrying(Resume, reply) && m.batch == s.batch && m.finished == s.finished)
  {
    hide Distinct;
  }

  lemma SecondCopy(s: State, reply: Reply)
    requires s.flusher.Retrying? && s.flusher.next.Resume?
    ensures Enabled(s, Copy(reply))
    ensures var m := Apply(s, Copy(reply));
            && m.ch == s.ch && m.flusher.Select? && m.batch == [] && |m.finished| == |s.finished| + 1
            && m.finished[..|s.finished|] == s.finished && m.finished[|s.finished|].batch == s.batch
            && m.table == if !reply.Refused? && Distinct(s.table + s.batch) then s.table + s.batch else s.table
  {
    hide Distinct;
  }

  lemma StoredOnce(table: seq<Record>, batch: seq<Record>)
    requires batch != []
    ensures !Distinct(table + batch + batch)
  {
    var all := table + batch + batch;
    assert all[|table|] == batch[0] && all[|table| + |batch|] == batch[0];
  }

  /** With distinct accepted ids, each finished batch took one COPY, or two if the first reply was not
      Committed; it is reported stored exactly when some reply was Committed and none was lost, and its
      rows are in the table exactly when the replies were not both Refused. So a batch counted as a
      flush error may have been stored, namely when a reply was lost, but never the reverse. The
      table is the concatenation of the stored batches, and holds no id twice even so. */
  lemma TableIsStoredBatches(capacity: nat, es: seq<Event>)
    requires Run(Init(capacity), es).Some? && Distinct(Run(Init(capacity), es).value.accepted)
    ensures var s := Run(Init(capacity), es).value;
            && Distinct(s.table)
            && s.table == Stored(s.finished) + (if InHandStored(s) then s.batch else [])
            && forall f :: f in s.finished ==>
                 && (f.second.Some? <==> !f.first.Committed?)
                 && (f.reported <==> (f.first.Committed? || f.second == Some(Committed)) && !f.first.ReplyLost?)
                 && (f.stored <==> !(f.first.Refused? && f.second == Some(Refused)))
                 && (f.stored && !f.reported <==> f.first.ReplyLost? || f.second == Some(ReplyLost))
  {
    ReachableInv(capacity, es);
    var s := Run(Init(capacity), es).value;
    forall f | f in s.finished
      ensures f.reported <==> (f.first.Committed? || f.second == Some(Committed)) && !f.first.ReplyLost?
      ensures f.stored && !f.reported <==> f.first.ReplyLost? || f.second == Some(ReplyLost)
    {
      assert Verdict(f);
      match f.second
      case None =>
      case Some(Committed) =>
      case Some(Refused) =>
      case Some(ReplyLost) =>
    }
  }

  /** A batch counted as a flush error may be in the table: for every store and record there is a run
      in which the first COPY commits and loses its reply, and the retry fails. */
  lemma FailedBatchMayBeStored(capacity: nat, r: Record) returns (es: seq<Event>, m: State)
    ensures Run(Init(capacity), es) == Some(m) && m.accepted == [r] && m.flushErrors == 1 && m.table == [r]
    ensures |m.finished| == 1 && m.finished[0].batch == [r] && m.finished[0].stored && !m.finished[0].reported
  {
    var s := Init(capacity);
    assert Run(s, []) == Some(s);
    hide Run;
    es, m := [HandOff(r)], Apply(s, HandOff(r));
    RunOne(s, HandOff(r));
    es := RunPush(s, es, m, Tick);
    m := Apply(m, Tick);
    es := RunPush(s, es, m, Copy(ReplyLost));
    m := Apply(m, Copy(ReplyLost));
    es := RunPush(s, es, m, Copy(Refused));
    m := Apply(m, Copy(Refused));
  }

  // ---------- the drain, with quiet producers ----------

  /** The batches a drain flushes, from the batch in hand and the channel contents. */
  function DrainBatches(batch: seq<Record>, ch: seq<Record>): seq<seq<Record>>
    decreases |ch|
  {
    if ch == [] then (if batch == [] then [] else [batch])
    else
      var b := batch + [ch[0]];
      if |b| >= DRAIN_CHUNK then [b] + DrainBatches([], ch[1..]) else DrainBatches(b, ch[1..])
  }

  function Concat(bs: seq<seq<Record>>): seq<Record> {
    if bs == [] then [] else bs[0] + Concat(bs[1..])
  }

  /** The drain keeps every record in order. */
  lemma {:induction false} DrainKeepsOrder(batch: seq<Record>, ch: seq<Record>)
    ensures Concat(DrainBatches(batch, ch)) == batch + ch
    decreases |ch|
  {
    if ch == [] {
      assert Concat([batch]) == batch + Concat([]);
    } else {
      var b := batch + [ch[0]];
      assert b + ch[1..] == batch + ch;
      if |b| >= DRAIN_CHUNK {
        var rest := DrainBatches([], ch[1..]);
        DrainKeepsOrder([], ch[1..]);
        assert ([b] + rest)[1..] == rest && [] + ch[1..] == ch[1..];
      } else {
        DrainKeepsOrder(b, ch[1..]);
      }
    }
  }

  /** Its batches have 1 to 1000 records, except that the first may have one more than the batch in
      hand already had. */
  lemma {:induction false} DrainBatchSizes(batch: seq<Record>, ch: seq<Record>)
    ensures var bs := DrainBatches(batch, ch);
            && (forall i :: 0 < i < |bs| ==> 0 < |bs[i]| <= 1000)
            && (bs != [] ==> 0 < |bs[0]| && (|bs[0]| <= 1000 || |bs[0]| <= |batch| + 1))
    decreases |ch|
  {
    if ch != [] {
      DrainBatchSizes(if |batch| + 1 >= DRAIN_CHUNK then [] else batch + [ch[0]], ch[1..]);
    }
  }

  /** The number of batches a drain flushes. */
  lemma {:induction false} DrainBatchCount(batch: seq<Record>, ch: seq<Record>)
    ensures |batch| < 1000 ==> |DrainBatches(batch, ch)| == CeilDiv(|batch| + |ch|, 1000)
    ensures |batch| >= 1000 ==> |DrainBatches(batch, ch)| == 1 + CeilDiv(if ch == [] then 0 else |ch| - 1, 1000)
    decreases |ch|
  {
    if ch != [] {
      DrainBatchCount(if |batch| + 1 >= DRAIN_CHUNK then [] else batch + [ch[0]], ch[1..]);
    }
  }

  // ---------- the methods ----------

  /** The store with its flusher's batch and the table it COPYs into. The k-th COPY of the store's
      life is answered by `oracle(k)`. Each method is what one goroutine does without a yield to
      the others, and is proved to be a run of the machine above. */
  class Store {
    const capacity: nat
    const oracle: nat -> Reply
    var ch: seq<Record>
    var batch: seq<Record>
    var flusher: Flusher
    var done: bool
    var table: seq<Record>
    var copies: nat
    ghost var accepted: seq<Record>
    ghost var dropped: seq<Record>
    ghost var finished: seq<Finished>
    var flushErrors: nat

    ghost function View(): State
      reads this
    {
      State(capacity, ch, batch, flusher, done, table, accepted, dropped, finished, flushErrors)
    }

    constructor (capacity: nat, oracle: nat -> Reply)
      ensures View() == Init(capacity) && this.oracle == oracle
    {
      this.capacity, this.oracle := capacity, oracle;
      ch, batch, table, copies, flushErrors := [], [], [], 0, 0;
      flusher, done := Select, false;
      accepted, dropped, finished := [], [], [];
    }

    /** `Log`: accepts exactly when the flusher is parked on the empty channel or there is room, and the
        caller's context does not win the select. */
    method Log(r: Record, parked: bool, cancelled: bool, preferCancel: bool) returns (logged: bool)
      requires parked ==> flusher.Select? && ch == []
      modifies this
      ensures logged <==> (parked || |old(ch)| < capacity) && !(cancelled && preferCancel)
      ensures ch == if logged && !parked then old(ch) + [r] else old(ch)
      ensures accepted == if logged then old(accepted) + [r] else old(accepted)
      ensures dropped == if !logged && !cancelled then old(dropped) + [r] else old(dropped)
      ensures var e := if logged then (if parked then HandOff(r) else Accept(r)) else if cancelled then Cancel(r) else Drop(r);
              Enabled(old(View()), e) && View() == Apply(old(View()), e)
    {
      if parked && !(cancelled && preferCancel) {
        batch := batch + [r];
        accepted := accepted + [r];
        return true;
      }
      if |ch| < capacity && !(cancelled && preferCancel) {
        ch := ch + [r];
        accepted := accepted + [r];
        return true;
      }
      if !cancelled {
        dropped := dropped + [r];
      }
      return false;
    }

    /** One COPY of the batch in hand. */
    method FlushPostgres() returns (ok: bool)
      requires flusher.Flushing? || flusher.Retrying?
      modifies this`table, this`copies
      ensures copies == old(copies) + 1
      ensures ok <==> oracle(old(copies)).Committed? && Distinct(old(table) + batch)
      ensures table == if !oracle(old(copies)).Refused? && Distinct(old(table) + batch) then old(table) + batch else old(table)
    {
      var reply := oracle(copies);
      copies := copies + 1;
      ok := false;
      if Commits(table, batch, reply) {
        table := table + batch;
        ok := reply.Committed?;
      }
    }

    /** One attempt of `flushWithRetry`: unless it is a first attempt that failed, the batch is finished. */
    method Attempt(second: bool) returns (over: bool)
      requires if second then flusher.Retrying? else flusher.Flushing?
      modifies this
      ensures copies == old(copies) + 1
      ensures View() == Apply(old(View()), Copy(oracle(old(copies))))
      ensures second ==> over
      ensures over ==> flusher == AfterFlush(old(flusher).next) && finished == old(finished) + [Ending(old(View()), oracle(old(copies)))]
      ensures !over ==> flusher == Retrying(old(flusher).next, oracle(old(copies))) && finished == old(finished)
    {
      hide Distinct;
      var reply, next := oracle(copies), flusher.next;
      ghost var f := Ending(View(), reply);
      over := FlushPostgres();
      if second {
        if !over {
          flushErrors := flushErrors + 1;
        }
        over := true;
      }
      if over {
        finished := finished + [f];
        flusher := AfterFlush(next);
        batch := [];
      } else {
        flusher := Retrying(next, reply);
      }
    }

    /** `flushWithRetry`: at most two COPYs, after which the batch is finished either way. */
    method FlushWithRetry() returns (ghost es: seq<Event>)
      requires flusher.Flushing?
      modifies this
      ensures Run(old(View()), es) == Some(View())
      ensures copies == old(copies) + |es|
      ensures es == [Copy(oracle(old(copies)))] || es == [Copy(oracle(old(copies))), Copy(oracle(old(copies) + 1))]
      ensures batch == [] && flusher == AfterFlush(old(flusher).next)
      ensures |finished| == |old(finished)| + 1 && finished[..|old(finished)|] == old(finished)
      ensures finished[|old(finished)|].batch == old(batch)
      ensures ch == old(ch) && accepted == old(accepted) && done == old(done) && dropped == old(dropped)
    {
      ghost var s0 := View();
      ghost var e1 := Copy(oracle(copies));
      var over := Attempt(false);
      RunOne(s0, e1);
      es := [e1];
      if !over {
        ghost var s1 := View();
        ghost var e2 := Copy(oracle(copies));
        over := Attempt(true);
        es := RunPush(s0, es, s1, e2);
      }
    }

    /** The receive of the select loop: the oldest record joins the batch. */
    method Receive()
      requires flusher.Select? && ch != []
      modifies this
      ensures Enabled(old(View()), Event.Receive) && View() == Apply(old(View()), Event.Receive)
      ensures batch == old(batch) + [old(ch)[0]] && ch == old(ch)[1..]
    {
      batch := batch + [ch[0]];
      ch := ch[1..];
    }

    /** The ticker's case: a batch that is not empty is flushed, whole. */
    method OnTick() returns (ghost es: seq<Event>)
      requires flusher.Select?
      modifies this
      ensures Run(old(View()), es) == Some(View())
      ensures flusher.Select? && batch == [] && ch == old(ch) && accepted == old(accepted)
      ensures BatchesOf(finished) == BatchesOf(old(finished)) + if old(batch) == [] then [] else [old(batch)]
      ensures old(batch) == [] ==> es == [Event.Tick] && copies == old(copies)
    {
      hide Run, BatchesOf;
      ghost var s0, fs := View(), finished;
      RunOne(s0, Event.Tick);
      es := [Event.Tick];
      if |batch| > 0 {
        flusher := Flushing(Resume);
        assert View() == Apply(s0, Event.Tick);
        hide Enabled, Apply;
        ghost var es' := FlushWithRetry();
        es := RunConcat(s0, es, es');
        OneMoreBatch(fs, finished);
      }
    }

    /** One turn of the drain loop: receive a record, and flush if the batch is a full chunk. */
    method DrainOne() returns (ghost es: seq<Event>)
      requires flusher.Draining? && ch != []
      modifies this
      ensures Run(old(View()), es) == Some(View()) && flusher.Draining?
      ensures ch == old(ch)[1..] && accepted == old(accepted) && done == old(done)
      ensures |old(finished)| <= |finished| && finished[..|old(finished)|] == old(finished)
      ensures var b := old(batch) + [old(ch)[0]];
              && batch == (if |b| >= DRAIN_CHUNK then [] else b)
              && BatchesOf(finished) == BatchesOf(old(finished)) + if |b| >= DRAIN_CHUNK then [b] else []
    {
      hide Run, BatchesOf;
      ghost var s0, fs := View(), finished;
      batch := batch + [ch[0]];
      ch := ch[1..];
      RunOne(s0, DrainReceive);
      es := [DrainReceive];
      if |batch| >= DRAIN_CHUNK {
        flusher := Flushing(KeepDraining);
        assert View() == Apply(s0, DrainReceive);
        hide Enabled, Apply;
        ghost var es' := FlushWithRetry();
        es := RunConcat(s0, es, es');
        OneMoreBatch(fs, finished);
      }
    }

    /** The end of the drain loop: flush what is left and exit. */
    method DrainLast() returns (ghost es: seq<Event>)
      requires flusher.Draining? && ch == []
      modifies this
      ensures Run(old(View()), es) == Some(View()) && flusher.Exited?
      ensures ch == [] && batch == [] && accepted == old(accepted) && done == old(done)
      ensures |old(finished)| <= |finished| && finished[..|old(finished)|] == old(finished)
      ensures BatchesOf(finished) == BatchesOf(old(finished)) + DrainBatches(old(batch), [])
    {
      hide Run, BatchesOf;
      ghost var s0, fs := View(), finished;
      RunOne(s0, DrainEmpty);
      es := [DrainEmpty];
      if |batch| > 0 {
        flusher := Flushing(Exit);
        assert View() == Apply(s0, DrainEmpty);
        hide Enabled, Apply;
        ghost var es' := FlushWithRetry();
        es := RunConcat(s0, es, es');
        OneMoreBatch(fs, finished);
      } else {
        flusher := Exited;
      }
    }

    /** The drain loop of `flusher`, producers quiet: it ends with the channel and the batch empty,
        having flushed exactly the batches DrainBatches lists, in order. */
    method Drain() returns (ghost es: seq<Event>)
      requires flusher.Draining?
      modifies this
      ensures Run(old(View()), es) == Some(View())
      ensures flusher.Exited? && ch == [] && batch == [] && accepted == old(accepted) && done == old(done)
      ensures BatchesOf(finished) == BatchesOf(old(finished)) + DrainBatches(old(batch), old(ch))
    {
      hide Enabled, Apply, Run, BatchesOf, DrainBatches;
      ghost var s0 := View();
      es := [];
      RunNone(s0);
      while ch != []
        invariant Run(s0, es) == Some(View()) && flusher.Draining? && accepted == s0.accepted && done == s0.done
        invariant BatchesOf(finished) + DrainBatches(batch, ch) == BatchesOf(s0.finished) + DrainBatches(s0.batch, s0.ch)
        decreases |ch|
      {
        DrainTurn(BatchesOf(finished), batch, ch);
        ghost var es' := DrainOne();
        es := RunConcat(s0, es, es');
      }
      ghost var es' := DrainLast();
      es := RunConcat(s0, es, es');
    }

    /** The flusher, if it was in a flush when `done` was closed, first comes back to its select. */
    method FinishFlush() returns (ghost es: seq<Event>)
      requires flusher.Select? || ((flusher.Flushing? || flusher.Retrying?) && flusher.next.Resume?)
      modifies this
      ensures Run(old(View()), es) == Some(View()) && flusher.Select?
      ensures ch == old(ch) && accepted == old(accepted) && done == old(done)
      ensures old(flusher).Select? ==> View() == old(View())
    {
      assert Run(View(), []) == Some(View());
      es := [];
      if flusher.Flushing? {
        es := FlushWithRetry();
      } else if flusher.Retrying? {
        RunOne(View(), Copy(oracle(copies)));
        es := [Copy(oracle(copies))];
        var over := Attempt(true);
      }
    }

    /** `Shutdown` with quiet producers, wherever the flusher is: when it returns, every accepted record
        has been handled. */
    method Shutdown() returns (ghost es: seq<Event>)
      requires Inv(View()) && !done
      modifies this
      ensures Run(old(View()), es) == Some(View())
      ensures done && flusher.Exited? && ch == [] && Handled(finished) == accepted == old(accepted)
    {
      ghost var s0 := View();
      done := true;
      RunOne(s0, Close);
      es := [Close];
      ghost var es' := FinishFlush();
      es := RunConcat(s0, es, es');
      es := RunPush(s0, es, View(), SeeDone);
      flusher := Draining;
      es' := Drain();
      es := RunConcat(s0, es, es');
      RunKeepsInv(s0, es);
    }
  }

  function BatchesOf(fs: seq<Finished>): seq<seq<Record>> {
    seq(|fs|, i requires 0 <= i < |fs| => fs[i].batch)
  }

  /** The batches of a drain, one turn at a time, after those flushed before. */
  lemma DrainTurn(flushed: seq<seq<Record>>, batch: seq<Record>, ch: seq<Record>)
    requires ch != []
    ensures var b := batch + [ch[0]];
            flushed + DrainBatches(batch, ch) ==
              if |b| >= DRAIN_CHUNK then (flushed + [b]) + DrainBatches([], ch[1..]) else (flushed + []) + DrainBatches(b, ch[1..])
  {
  }

  lemma RunNone(s: State)
    ensures Run(s, []) == Some(s)
  {
  }

  lemma OneMoreBatch(fs: seq<Finished>, fs': seq<Finished>)
    requires |fs'| == |fs| + 1 && fs'[..|fs|] == fs
    ensures BatchesOf(fs') == BatchesOf(fs) + [fs'[|fs|].batch]
  {
    assert forall i :: 0 <= i < |fs| ==> fs'[i] == fs'[..|fs|][i];
  }

  lemma RunOne(s: State, e: Event)
    requires Enabled(s, e)
    ensures Run(s, [e]) == Some(Apply(s, e))
  {
    assert [e][..0] == [];
  }

  lemma RunPush(s: State, es: seq<Event>, m: State, e: Event) returns (es': seq<Event>)
    requires Run(s, es) == Some(m) && Enabled(m, e)
    ensures es' == es + [e] && Run(s, es') == Some(Apply(m, e))
  {
    hide Enabled, Apply;
    es' := es + [e];
    assert es'[..|es|] == es;
  }

  lemma {:induction false} RunConcat(s: State, es: seq<Event>, es': seq<Event>) returns (all: seq<Event>)
    requires Run(s, es).Some? && Run(Run(s, es).value, es').Some?
    ensures all == es + es' && Run(s, all) == Run(Run(s, es).value, es')
    decreases es'
  {
    hide Enabled, Apply;
    all := es + es';
    if es' == [] {
      assert all == es;
    } else {
      var init := RunConcat(s, es, es'[..|es'|-1]);
      assert all[..|all|-1] == init;
    }
  }

  lemma {:induction false} RunKeepsInv(s: State, es: seq<Event>)
    requires Inv(s) && Run(s, es).Some?
    ensures Inv(Run(s, es).value)
    decreases es
  {
    if es != [] {
      RunKeepsInv(s, es[..|es|-1]);
      StepKeepsInv(Run(s, es[..|es|-1]).value, es[|es|-1]);
    }
  }
}
