/**
 The update manager as an object: the fields its mutex protects and one method per
 critical section, each proved to do what the pipeline's steps do, and the buffer
 capacity the options promise.
 */
module BufferObject {
  import opened Records
  import opened UpdateManager

  /** What a submission comes to. `MustWait` says whether a buffer was handed over before blocking. */
  datatype Reply =
    | EmptyBatch
    | TooManyBytes
    | TooManyRecords
    | FatalError
    | MustWait(rotated: bool)
    | Accepted(commit: u64)

  datatype Limits = Limits(records: nat, bytes: nat, overhead: nat)

  function Cost(l: Limits, u: Update): nat {
    l.overhead + |u.record.value|
  }

  function TotalCost(l: Limits, us: seq<Update>): nat {
    if us == [] then 0 else TotalCost(l, us[..|us|-1]) + Cost(l, us[|us|-1])
  }

  lemma {:induction false} TotalCostAppend(l: Limits, a: seq<Update>, b: seq<Update>)
    ensures TotalCost(l, a + b) == TotalCost(l, a) + TotalCost(l, b)
    decreases |b|
  {
    if b == [] {
      assert a + b == a;
    } else {
      TotalCostAppend(l, a, b[..|b|-1]);
      assert (a + b)[..|a + b|-1] == a + b[..|b|-1];
    }
  }

  lemma {:induction false} TotalCostPrefix(l: Limits, us: seq<Update>, i: nat)
    requires i <= |us|
    ensures TotalCost(l, us[..i]) <= TotalCost(l, us)
  {
    TotalCostAppend(l, us[..i], us[i..]);
    assert us[..i] + us[i..] == us;
  }

  lemma {:induction false} StampKeepsCost(l: Limits, us: seq<Update>, commit: u64)
    ensures TotalCost(l, Stamp(us, commit)) == TotalCost(l, us)
  {
    if us != [] {
      StampKeepsCost(l, us[..|us|-1], commit);
      assert Stamp(us, commit)[..|us|-1] == Stamp(us[..|us|-1], commit);
    }
  }

  /** A batch that fits one buffer by itself. */
  predicate Admissible(l: Limits, us: seq<Update>) {
    us != [] && TotalCost(l, us) <= l.bytes && |us| <= l.records
  }

  predicate Overflows(l: Limits, held: seq<Update>, us: seq<Update>) {
    held != [] && (|held| + |us| > l.records || TotalCost(l, held) + TotalCost(l, us) > l.bytes)
  }

  predicate Full(l: Limits, held: seq<Update>) {
    |held| >= l.records || TotalCost(l, held) >= l.bytes
  }

  ghost predicate WithinCapacity(l: Limits, bs: seq<Buffer>) {
    forall i :: 0 <= i < |bs| ==> |bs[i].records| <= l.records && TotalCost(l, bs[i].records) <= l.bytes
  }

  predicate HasActive(m: Manager) {
    m.active.Some? && m.active.value < |m.buffers|
  }

  /** A stamped batch published to readers and placed in the active buffer. */
  function Place(m: Manager, us: seq<Update>): Manager
    requires HasActive(m) && m.next <= LATEST
  {
    var stamped := Stamp(us, m.next);
    Append(m.(next := m.next + 1, pending := PublishAll(m.pending, stamped)), stamped)
  }

  function RotateIfFull(l: Limits, m: Manager): Manager
    requires HasActive(m)
  {
    if Full(l, m.buffers[m.active.value].records) then Rotate(m) else m
  }

  class PropertyUpdateManager {
    const limits: Limits
    var buffers: seq<Buffer>
    var sizes: seq<nat>
    var queue: seq<nat>
    var active: Option<nat>
    var pending: PendingMap
    var next: nat
    var fatal: bool

    ghost function Abs(): Manager
      reads this
    {
      Manager(buffers, queue, active, pending, next, fatal)
    }

    /** The active and queued buffers are what they are marked as, byte counts are exact, free buffers are empty. */
    ghost predicate Valid()
      reads this
    {
      && |sizes| == |buffers|
      && (active.Some? ==> active.value < |buffers| && buffers[active.value].state.Active?)
      && (forall i :: 0 <= i < |queue| ==> queue[i] < |buffers| && buffers[queue[i]].state.Queued?)
      && (forall i, j :: 0 <= i < j < |queue| ==> queue[i] != queue[j])
      && (forall i :: 0 <= i < |buffers| ==> sizes[i] == TotalCost(limits, buffers[i].records))
      && (forall i :: 0 <= i < |buffers| && buffers[i].state.Free? ==> buffers[i].records == [])
    }

    /** Refuses options with fewer than two buffers or without any capacity. */
    static method Create(enabled: bool, count: nat, limits: Limits, first: u64) returns (m: PropertyUpdateManager?)
      ensures m != null <==> enabled && count >= 2 && limits.records > 0 && limits.bytes > 0
      ensures m != null ==> fresh(m) && m.Valid() && m.limits == limits && WithinCapacity(limits, m.buffers)
      ensures m != null ==> |m.buffers| == count && m.active == Some(0) && FirstFree(m.buffers, 0) == Some(1)
      ensures m != null ==> m.queue == [] && m.pending == map[] && !m.fatal
      ensures m != null ==> m.next == if first == 0 then 1 else first
    {
      if !enabled || count < 2 || limits.records == 0 || limits.bytes == 0 {
        return null;
      }
      m := new PropertyUpdateManager(count, limits, first);
      assert m.buffers[0].state.Active? && m.buffers[1].state.Free?;
    }

    /** All buffers free but the first, which is active; commits start at 1 or above the recovered ones. */
    constructor (count: nat, limits: Limits, first: u64)
      requires count >= 2 && limits.records > 0 && limits.bytes > 0
      ensures Valid() && this.limits == limits && WithinCapacity(limits, buffers)
      ensures |buffers| == count && active == Some(0) && queue == [] && pending == map[] && !fatal
      ensures next == if first == 0 then 1 else first
      ensures forall i :: 0 <= i < count ==> buffers[i] == Buffer(if i == 0 then Active else Free, [])
    {
      this.limits := limits;
      buffers := seq(count, i => Buffer(if i == 0 then Active else Free, []));
      sizes := seq(count, i => 0);
      queue, active, pending, next, fatal := [], Some(0), map[], if first == 0 then 1 else first, false;
    }

    /** Scans for the first free buffer and makes it the active one. */
    method ActivateFree()
      requires Valid()
      modifies this`buffers, this`active
      ensures Valid() && Abs() == Activate(old(Abs()))
    {
      var i := 0;
      while i < |buffers|
        invariant 0 <= i <= |buffers| && Valid() && Abs() == old(Abs())
        invariant FirstFree(buffers, i) == FirstFree(buffers, 0)
      {
        if buffers[i].state.Free? {
          buffers := buffers[i := buffers[i].(state := Active)];
          active := Some(i);
          return;
        }
        i := i + 1;
      }
    }

    method QueueActiveBuffer()
      requires Valid()
      modifies this`buffers, this`active, this`queue
      ensures Valid() && Abs() == Rotate(old(Abs()))
    {
      if active.None? {
        return;
      }
      var a := active.value;
      if buffers[a].records == [] {
        return;
      }
      buffers := buffers[a := buffers[a].(state := Queued)];
      queue := queue + [a];
      active := None;
      ActivateFree();
    }

    method PublishPending(u: Update)
      modifies this`pending
      ensures pending == Publish(old(pending), u)
    {
      if KeyOf(u) !in pending || pending[KeyOf(u)].commit <= u.record.commit {
        pending := pending[KeyOf(u) := PendingValue(u.record.key.base, u.record.commit, u.record.value)];
      }
    }

    method RetirePending(us: seq<Update>)
      modifies this`pending
      ensures pending == RetireAll(old(pending), us)
    {
      var i := 0;
      assert us[..0] == [];
      while i < |us|
        invariant 0 <= i <= |us| && pending == RetireAll(old(pending), us[..i])
      {
        assert us[..i+1][..i] == us[..i];
        if KeyOf(us[i]) in pending && pending[KeyOf(us[i])].commit == us[i].record.commit {
          pending := pending - {KeyOf(us[i])};
        }
        i := i + 1;
      }
      assert us[..i] == us;
    }

    /** Bytes of a batch, or nothing as soon as they exceed one buffer. */
    method BatchBytes(us: seq<Update>) returns (r: Option<nat>)
      ensures r == if TotalCost(limits, us) <= limits.bytes then Some(TotalCost(limits, us)) else None
    {
      var i, total := 0, 0;
      assert us[..0] == [];
      while i < |us|
        invariant 0 <= i <= |us| && total == TotalCost(limits, us[..i]) && total <= limits.bytes
      {
        assert us[..i+1][..i] == us[..i];
        TotalCostPrefix(limits, us, i + 1);
        if Cost(limits, us[i]) > limits.bytes - total {
          return None;
        }
        total := total + Cost(limits, us[i]);
        i := i + 1;
      }
      assert us[..i] == us;
      r := Some(total);
    }

    /** Stamps every update with the commit and makes it visible to readers. */
    method PublishBatch(us: seq<Update>, commit: u64) returns (stamped: seq<Update>)
      modifies this`pending
      ensures stamped == Stamp(us, commit) && pending == PublishAll(old(pending), stamped)
    {
      stamped := [];
      var i := 0;
      while i < |us|
        invariant 0 <= i <= |us| && stamped == Stamp(us, commit)[..i]
        invariant pending == PublishAll(old(pending), stamped)
      {
        var u := us[i].(record := us[i].record.(commit := commit));
        PublishPending(u);
        assert (stamped + [u])[..i] == stamped;
        stamped := stamped + [u];
        i := i + 1;
      }
    }

    method AppendToActive(us: seq<Update>, bytes: nat)
      requires Valid() && active.Some? && bytes == TotalCost(limits, us)
      modifies this`buffers, this`sizes
      ensures Valid() && Abs() == Append(old(Abs()), us)
    {
      hide TotalCost;
      var a := active.value;
      TotalCostAppend(limits, buffers[a].records, us);
      buffers := buffers[a := buffers[a].(records := buffers[a].records + us)];
      sizes := sizes[a := sizes[a] + bytes];
    }

    /** Takes a commit, publishes the batch, and adds it to the active buffer. */
    method PlaceBatch(us: seq<Update>, bytes: nat) returns (commit: u64)
      requires Valid() && active.Some? && next <= LATEST && bytes == TotalCost(limits, us)
      modifies this
      ensures Valid() && commit == old(next)
      ensures Abs() == RotateIfFull(limits, Place(old(Abs()), us))
    {
      hide TotalCost, Stamp, PublishAll, Rotate;
      commit := next;
      next := next + 1;
      var stamped := PublishBatch(us, commit);
      StampKeepsCost(limits, us, commit);
      AppendToActive(stamped, bytes);
      if |buffers[active.value].records| >= limits.records || sizes[active.value] >= limits.bytes {
        QueueActiveBuffer();
      }
    }

    /** Everything a submission does until it returns or blocks. */
    method SubmitBatch(us: seq<Update>) returns (r: Reply)
      requires Valid() && next <= LATEST
      modifies this
      ensures Valid()
      ensures r.EmptyBatch? <==> us == []
      ensures r.TooManyBytes? <==> us != [] && TotalCost(limits, us) > limits.bytes
      ensures r.TooManyRecords? <==> us != [] && TotalCost(limits, us) <= limits.bytes && |us| > limits.records
      ensures r.FatalError? <==> Admissible(limits, us) && old(fatal)
      ensures !Admissible(limits, us) || old(fatal) ==> Abs() == old(Abs())
      ensures r == ReplyTo(limits, old(Abs()), us)
      ensures Abs() == AfterSubmit(limits, old(Abs()), us)
    {
      hide TotalCost, Stamp, PublishAll, Rotate, RotateIfFull, Place;
      if us == [] {
        return EmptyBatch;
      }
      var bytes := BatchBytes(us);
      if bytes.None? {
        return TooManyBytes;
      }
      if |us| > limits.records {
        return TooManyRecords;
      }
      if fatal {
        return FatalError;
      }
      if active.None? {
        return MustWait(false);
      }
      var a := active.value;
      if buffers[a].records != [] &&
        (|buffers[a].records| + |us| > limits.records || sizes[a] + bytes.value > limits.bytes) {
        QueueActiveBuffer();
        RotateKeeps(old(Abs()));
        if active.None? {
          return MustWait(true);
        }
      }
      var commit := PlaceBatch(us, bytes.value);
      r := Accepted(commit);
    }

    /** What a submission that slept before handing over any buffer does when it wakes up. */
    method RetrySubmit(us: seq<Update>) returns (r: Reply)
      requires Valid() && next <= LATEST
      modifies this
      ensures Valid() && Activate(old(Abs())).next <= LATEST
      ensures Activate(old(Abs())).active.Some? ==> HasActive(Activate(old(Abs())))
      ensures r == ReplyTo(limits, Activate(old(Abs())), us)
      ensures Abs() == AfterSubmit(limits, Activate(old(Abs())), us)
    {
      hide TotalCost, Activate, ReplyTo, AfterSubmit;
      ActivateKeeps(Abs());
      ActivateFree();
      r := SubmitBatch(us);
    }

    /**
     What a submission that slept after handing over a buffer does when it wakes up:
     it scans for a free buffer whatever is active, and checks no capacity again.
     */
    method ResumeSubmit(us: seq<Update>, bytes: nat) returns (r: Reply)
      requires Valid() && next <= LATEST && bytes == TotalCost(limits, us)
      modifies this
      ensures Valid()
      ensures r == ReplyOnWake(old(Abs()))
      ensures Abs() == AfterWake(limits, old(Abs()), us)
    {
      hide TotalCost, Stamp, PublishAll, Rotate, RotateIfFull, Place, Activate;
      ActivateKeeps(Abs());
      ActivateFree();
      if fatal {
        return FatalError;
      }
      if active.None? {
        return MustWait(true);
      }
      var commit := PlaceBatch(us, bytes);
      r := Accepted(commit);
    }

    // ---- Draining ----

    /** The part of a drain before its wait: refuses after a failure, else hands the active buffer over. */
    method BeginDrain() returns (ok: bool)
      requires Valid()
      modifies this`buffers, this`active, this`queue
      ensures Valid() && ok == !old(fatal)
      ensures Abs() == if ok then Rotate(old(Abs())) else old(Abs())
    {
      if fatal {
        return false;
      }
      QueueActiveBuffer();
      ok := true;
    }

    /** The part after its wait: it leaves an active buffer behind if there is one. */
    method EndDrain() returns (ok: bool)
      requires Valid() && (fatal || queue == [])
      modifies this`buffers, this`active
      ensures Valid() && ok == !old(fatal)
      ensures Abs() == if ok && old(active).None? then Activate(old(Abs())) else old(Abs())
    {
      if fatal {
        return false;
      }
      if active.None? {
        ActivateFree();
      }
      ok := true;
    }

    // ---- The worker ----

    method TakeBuffer() returns (b: Option<nat>)
      requires Valid()
      modifies this`buffers, this`queue
      ensures b.None? <==> old(queue) == []
      ensures if b.Some? then b.value == old(queue)[0] && Abs() == Take(old(Abs())) else Abs() == old(Abs())
      ensures Valid()
    {
      if queue == [] {
        return None;
      }
      var i := queue[0];
      buffers := buffers[i := buffers[i].(state := Flushing)];
      queue := queue[1..];
      b := Some(i);
    }

    /** Groups a buffer's updates by target, in submission order. */
    method GroupBuffer(b: nat) returns (groups: map<Target, seq<Record>>)
      requires b < |buffers|
      ensures groups == GroupBy(ByTarget(buffers[b].records))
    {
      var us := buffers[b].records;
      groups := map[];
      var i := 0;
      while i < |us|
        invariant 0 <= i <= |us| && groups == GroupBy(ByTarget(us)[..i])
      {
        var u := us[i];
        assert ByTarget(us)[..i+1][..i] == ByTarget(us)[..i];
        groups := groups[u.target := (if u.target in groups then groups[u.target] else []) + [u.record]];
        i := i + 1;
      }
      assert ByTarget(us)[..i] == ByTarget(us);
    }

    method FinishFlush(b: nat, ok: bool)
      requires Valid() && b < |buffers| && buffers[b].state.Flushing?
      modifies this`buffers, this`sizes, this`active, this`fatal
      ensures Valid() && Abs() == Finish(old(Abs()), b, ok)
    {
      if ok {
        buffers := buffers[b := Buffer(Free, [])];
        sizes := sizes[b := 0];
        if active.None? {
          buffers := buffers[b := buffers[b].(state := Active)];
          active := Some(b);
        }
      } else {
        buffers := buffers[b := buffers[b].(state := Failed)];
        fatal := true;
      }
    }
  }

  // ---- Submissions on values ----

  function ReplyTo(l: Limits, m: Manager, us: seq<Update>): Reply
    requires m.active.Some? ==> HasActive(m)
    requires m.next <= LATEST
  {
    if us == [] then EmptyBatch
    else if TotalCost(l, us) > l.bytes then TooManyBytes
    else if |us| > l.records then TooManyRecords
    else if m.fatal then FatalError
    else if m.active.None? then MustWait(false)
    else if Overflows(l, m.buffers[m.active.value].records, us) && Rotate(m).active.None? then MustWait(true)
    else Accepted(m.next)
  }

  function AfterSubmit(l: Limits, m: Manager, us: seq<Update>): Manager
    requires m.active.Some? ==> HasActive(m)
    requires m.next <= LATEST
  {
    match ReplyTo(l, m, us)
    case MustWait(rotated) => if rotated then Rotate(m) else m
    case Accepted(_) =>
      RotateKeeps(m);
      RotateIfFull(l, Place(if Overflows(l, m.buffers[m.active.value].records, us) then Rotate(m) else m, us))
    case _ => m
  }

  function ReplyOnWake(m: Manager): Reply
    requires m.next <= LATEST
  {
    if m.fatal then FatalError else if Activate(m).active.None? then MustWait(true) else Accepted(m.next)
  }

  function AfterWake(l: Limits, m: Manager, us: seq<Update>): Manager
    requires m.active.Some? ==> HasActive(m)
    requires m.next <= LATEST
  {
    ActivateKeeps(m);
    if ReplyOnWake(m).Accepted? then RotateIfFull(l, Place(Activate(m), us)) else Activate(m)
  }

  lemma ActivateKeeps(m: Manager)
    requires m.active.Some? ==> HasActive(m)
    ensures |Activate(m).buffers| == |m.buffers| && Activate(m).next == m.next && Activate(m).fatal == m.fatal
    ensures Activate(m).active.Some? ==> HasActive(Activate(m))
  {}

  lemma RotateKeeps(m: Manager)
    requires HasActive(m)
    ensures |Rotate(m).buffers| == |m.buffers| && Rotate(m).next == m.next && Rotate(m).fatal == m.fatal
    ensures Rotate(m).active.Some? ==> HasActive(Rotate(m))
  {}

  /**
   Where an accepted batch goes: the buffer it joins is the active one while the batch
   fits it, and stays active exactly while it has records and bytes to spare.
   */
  lemma AcceptedPlacement(l: Limits, m: Manager, us: seq<Update>)
    requires HasActive(m) && m.buffers[m.active.value].state.Active? && m.next <= LATEST
    requires ReplyTo(l, m, us).Accepted? && FreeIsEmpty(m.buffers)
    ensures var a, q := m.active.value, AfterSubmit(l, m, us);
            var held := m.buffers[a].records + Stamp(us, m.next);
            |held| <= l.records && TotalCost(l, held) <= l.bytes ==>
              && a < |q.buffers| && q.buffers[a].records == held
              && if |held| < l.records && TotalCost(l, held) < l.bytes then q.active == Some(a) && q.queue == m.queue
                 else q.active != Some(a) && q.queue == m.queue + [a]
    ensures var a, q := m.active.value, AfterSubmit(l, m, us);
            var held := m.buffers[a].records + Stamp(us, m.next);
            m.buffers[a].records != [] && (|held| > l.records || TotalCost(l, held) > l.bytes) ==>
              && |q.queue| > |m.queue| && q.queue[..|m.queue| + 1] == m.queue + [a]
              && a < |q.buffers| && q.buffers[a].records == m.buffers[a].records
  {
    hide TotalCost, PublishAll;
    var a := m.active.value;
    TotalCostAppend(l, m.buffers[a].records, Stamp(us, m.next));
    StampKeepsCost(l, us, m.next);
    NoCost(l);
  }

  // ---- Capacity ----

  ghost predicate FreeIsEmpty(bs: seq<Buffer>) {
    forall i :: 0 <= i < |bs| && bs[i].state.Free? ==> bs[i].records == []
  }

  /** Rotating moves no record, and a freshly activated buffer is empty. */
  lemma RotateMovesNothing(m: Manager)
    requires HasActive(m) && m.buffers[m.active.value].state.Active? && FreeIsEmpty(m.buffers)
    ensures |Rotate(m).buffers| == |m.buffers|
    ensures forall i :: 0 <= i < |m.buffers| ==> Rotate(m).buffers[i].records == m.buffers[i].records
    ensures m.buffers[m.active.value].records != [] && Rotate(m).active.Some? ==>
      Rotate(m).active.value < |m.buffers| && m.buffers[Rotate(m).active.value].records == []
  {}

  lemma PlaceFitsIff(l: Limits, m: Manager, us: seq<Update>)
    requires HasActive(m) && m.next <= LATEST && Admissible(l, us) && WithinCapacity(l, m.buffers)
    ensures WithinCapacity(l, Place(m, us).buffers) <==> !Overflows(l, m.buffers[m.active.value].records, us)
  {
    hide TotalCost, PublishAll;
    var a := m.active.value;
    var stamped := Stamp(us, m.next);
    TotalCostAppend(l, m.buffers[a].records, stamped);
    StampKeepsCost(l, us, m.next);
    assert Place(m, us).buffers[a].records == m.buffers[a].records + stamped;
    NoCost(l);
  }

  lemma NoCost(l: Limits)
    ensures TotalCost(l, []) == 0
  {}

  /** A submission that never blocks after handing over its buffer keeps every buffer within capacity. */
  lemma SubmitKeepsCapacity(l: Limits, m: Manager, us: seq<Update>)
    requires m.active.Some? ==> HasActive(m) && m.buffers[m.active.value].state.Active?
    requires m.next <= LATEST && FreeIsEmpty(m.buffers) && WithinCapacity(l, m.buffers)
    ensures WithinCapacity(l, AfterSubmit(l, m, us).buffers)
  {
    hide TotalCost, Rotate, Place;
    if HasActive(m) {
      RotateMovesNothing(m);
    }
    if ReplyTo(l, m, us).Accepted? {
      var r := if Overflows(l, m.buffers[m.active.value].records, us) then Rotate(m) else m;
      RotateKeeps(m);
      PlaceFitsIff(l, r, us);
      FullRotationKeeps(l, r, us);
    }
  }

  lemma FullRotationKeeps(l: Limits, r: Manager, us: seq<Update>)
    requires HasActive(r) && r.next <= LATEST && WithinCapacity(l, Place(r, us).buffers)
    ensures WithinCapacity(l, RotateIfFull(l, Place(r, us)).buffers)
  {
    hide TotalCost, Stamp, PublishAll, RotateIfFull;
    RotatedRecords(l, Place(r, us));
    SameRecordsSameCapacity(l, Place(r, us).buffers, RotateIfFull(l, Place(r, us)).buffers);
  }

  /**
   Waking up after the second wait, told from the state before: every buffer stays
   within capacity exactly when a free buffer is there to switch to, or the active
   one, if any, has room for the batch. Otherwise it is filled beyond capacity.
   */
  lemma ResumeKeepsCapacityIff(l: Limits, m: Manager, us: seq<Update>)
    requires m.active.Some? ==> HasActive(m)
    requires m.next <= LATEST && !m.fatal && Admissible(l, us) && FreeIsEmpty(m.buffers) && WithinCapacity(l, m.buffers)
    ensures WithinCapacity(l, AfterWake(l, m, us).buffers) <==>
              || FirstFree(m.buffers, 0).Some? || m.active.None?
              || !Overflows(l, m.buffers[m.active.value].records, us)
  {
    hide TotalCost, Stamp, PublishAll, Rotate;
    ActivateKeeps(m);
    var w := Activate(m);
    assert forall i :: 0 <= i < |m.buffers| ==> w.buffers[i].records == m.buffers[i].records;
    if w.active.Some? {
      PlaceFitsIff(l, w, us);
      var p := Place(w, us);
      RotatedRecords(l, p);
      SameRecordsSameCapacity(l, p.buffers, RotateIfFull(l, p).buffers);
    }
  }

  lemma RotatedRecords(l: Limits, p: Manager)
    requires HasActive(p)
    ensures |RotateIfFull(l, p).buffers| == |p.buffers|
    ensures forall i :: 0 <= i < |p.buffers| ==> RotateIfFull(l, p).buffers[i].records == p.buffers[i].records
  {
    hide TotalCost;
  }

  lemma SameRecordsSameCapacity(l: Limits, a: seq<Buffer>, b: seq<Buffer>)
    requires |a| == |b| && forall i :: 0 <= i < |a| ==> b[i].records == a[i].records
    ensures WithinCapacity(l, a) <==> WithinCapacity(l, b)
  {
    hide TotalCost;
  }
}
