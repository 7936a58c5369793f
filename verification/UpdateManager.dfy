/**
 The buffering of property updates: the pending map readers consult, the rotating
 buffers, and the hand-over of a full buffer to the flush worker.
 */
module UpdateManager {
  import opened Records
  import opened DeltaStore

  datatype Update = Update(target: Target, record: Record, persistent: bool)

  /** One property of one topology record, wherever it is stored. */
  datatype Slot = Slot(kind: Kind, shard: u32, property: u32, key: Key)

  /** The pending map leaves the topology sequence out of its key. */
  datatype PendingKey = PendingKey(kind: Kind, shard: u32, property: u32, src: u64, dst: u64, isOut: bool,
                                   edgeType: byte)

  datatype PendingValue = PendingValue(base: i64, commit: u64, value: Bytes)

  type PendingMap = map<PendingKey, PendingValue>

  datatype BufferState = Free | Active | Queued | Flushing | Failed

  datatype Buffer = Buffer(state: BufferState, records: seq<Update>)

  datatype Manager = Manager(
    buffers: seq<Buffer>,
    queue: seq<nat>,
    active: Option<nat>,
    pending: PendingMap,
    next: nat,
    fatal: bool)

  function SlotOf(u: Update): Slot {
    Slot(u.target.kind, u.target.shard, u.target.property, u.record.key)
  }

  function PendingKeyOf(x: Slot): PendingKey {
    PendingKey(x.kind, x.shard, x.property, x.key.src, x.key.dst, x.key.isOut, x.key.edgeType)
  }

  function KeyOf(u: Update): PendingKey {
    PendingKeyOf(SlotOf(u))
  }

  // ---- The pending map ----

  function Publish(p: PendingMap, u: Update): PendingMap {
    if KeyOf(u) !in p || p[KeyOf(u)].commit <= u.record.commit
    then p[KeyOf(u) := PendingValue(u.record.key.base, u.record.commit, u.record.value)]
    else p
  }

  function PublishAll(p: PendingMap, us: seq<Update>): PendingMap {
    if us == [] then p else Publish(PublishAll(p, us[..|us|-1]), us[|us|-1])
  }

  /** Erases the entry only if no newer update replaced it. */
  function Retire(p: PendingMap, u: Update): PendingMap {
    if KeyOf(u) in p && p[KeyOf(u)].commit == u.record.commit then p - {KeyOf(u)} else p
  }

  function RetireAll(p: PendingMap, us: seq<Update>): PendingMap {
    if us == [] then p else Retire(RetireAll(p, us[..|us|-1]), us[|us|-1])
  }

  /** Newest pending value of a topology record, if its entry is for this very record. */
  function LookupExact(p: PendingMap, x: Slot): Option<PendingValue> {
    if PendingKeyOf(x) in p && p[PendingKeyOf(x)].base == x.key.base then Some(p[PendingKeyOf(x)]) else None
  }

  // ---- Rotating buffers ----

  /** Least index of a free buffer at or after `from`. */
  function FirstFree(bs: seq<Buffer>, from: nat): (r: Option<nat>)
    requires from <= |bs|
    ensures r.Some? ==> from <= r.value < |bs| && bs[r.value].state.Free? && forall i :: from <= i < r.value ==>
        !bs[i].state.Free?
    ensures r.None? ==> forall i :: from <= i < |bs| ==> !bs[i].state.Free?
    decreases |bs| - from
  {
    if from == |bs| then None
    else if bs[from].state.Free? then Some(from)
    else FirstFree(bs, from + 1)
  }

  /** Makes the first free buffer active, if there is one, whatever is active already. */
  function Activate(m: Manager): Manager {
    match FirstFree(m.buffers, 0)
    case None => m
    case Some(i) => m.(buffers := m.buffers[i := m.buffers[i].(state := Active)], active := Some(i))
  }

  /** Hands a non-empty active buffer to the worker and picks a free one. */
  function Rotate(m: Manager): Manager
    requires m.active.Some? ==> m.active.value < |m.buffers|
  {
    if m.active.None? || m.buffers[m.active.value].records == [] then m
    else
      var a := m.active.value;
      Activate(m.(buffers := m.buffers[a := m.buffers[a].(state := Queued)], queue := m.queue + [a], active := None))
  }

  function Append(m: Manager, us: seq<Update>): Manager
    requires m.active.Some? && m.active.value < |m.buffers|
  {
    var a := m.active.value;
    m.(buffers := m.buffers[a := m.buffers[a].(records := m.buffers[a].records + us)])
  }

  function Take(m: Manager): Manager
    requires m.queue != [] && m.queue[0] < |m.buffers|
  {
    var b := m.queue[0];
    m.(buffers := m.buffers[b := m.buffers[b].(state := Flushing)], queue := m.queue[1..])
  }

  function Finish(m: Manager, b: nat, ok: bool): Manager
    requires b < |m.buffers|
  {
    if !ok then m.(buffers := m.buffers[b := m.buffers[b].(state := Failed)], fatal := true)
    else if m.active.None? then m.(buffers := m.buffers[b := Buffer(Active, [])], active := Some(b))
    else m.(buffers := m.buffers[b := Buffer(Free, [])])
  }

  /** All updates of one batch get the same commit. */
  function Stamp(us: seq<Update>, commit: u64): (r: seq<Update>)
    ensures |r| == |us|
    ensures forall i :: 0 <= i < |r| ==> r[i] == us[i].(record := us[i].record.(commit := commit))
  {
    seq(|us|, i requires 0 <= i < |us| => us[i].(record := us[i].record.(commit := commit)))
  }

  // ---- Grouping a buffer by target ----

  datatype Addressed = Addressed(to: Target, record: Record)

  function AddTo(g: map<Target, seq<Record>>, x: Addressed): map<Target, seq<Record>> {
    g[x.to := (if x.to in g then g[x.to] else []) + [x.record]]
  }

  /** Records by destination, each group in submission order. */
  function GroupBy(xs: seq<Addressed>): map<Target, seq<Record>> {
    if xs == [] then map[] else AddTo(GroupBy(xs[..|xs|-1]), xs[|xs|-1])
  }

  function ByTarget(us: seq<Update>): (xs: seq<Addressed>)
    ensures |xs| == |us|
    ensures forall i :: 0 <= i < |us| ==> xs[i] == Addressed(us[i].target, us[i].record)
  {
    seq(|us|, i requires 0 <= i < |us| => Addressed(us[i].target, us[i].record))
  }

  /** A group holds exactly the records addressed to it. */
  lemma {:induction false} GroupMembers(xs: seq<Addressed>, t: Target, r: Record)
    ensures t in GroupBy(xs) && r in GroupBy(xs)[t] <==> Addressed(t, r) in xs
  {
    if xs != [] {
      var ys, x := xs[..|xs|-1], xs[|xs|-1];
      GroupMembers(ys, t, r);
      assert xs == ys + [x];
    }
  }

  /** The records addressed to `t`, first to last. */
  function SentTo(xs: seq<Addressed>, t: Target): seq<Record> {
    if xs == [] then [] else (if xs[0].to == t then [xs[0].record] else []) + SentTo(xs[1..], t)
  }

  lemma {:induction false} SentToLast(xs: seq<Addressed>, t: Target)
    requires xs != []
    ensures SentTo(xs, t) ==
      SentTo(xs[..|xs|-1], t) + if xs[|xs|-1].to == t then [xs[|xs|-1].record] else []
  {
    var ys := xs[..|xs|-1];
    if |xs| > 1 {
      SentToLast(xs[1..], t);
      assert xs[1..][..|xs|-2] == ys[1..];
    }
  }

  /** Grouping keeps submission order: each group is what was addressed to it, first to last. */
  lemma {:induction false} GroupKeepsOrder(xs: seq<Addressed>, t: Target)
    ensures (if t in GroupBy(xs) then GroupBy(xs)[t] else []) == SentTo(xs, t)
  {
    if xs != [] {
      GroupKeepsOrder(xs[..|xs|-1], t);
      SentToLast(xs, t);
    }
  }

  /** Of several updates of one record in a buffer, its group ends with the one submitted last. */
  lemma {:induction false} GroupEndsWithLast(us: seq<Update>, i: nat)
    requires i < |us|
    requires forall j :: i < j < |us| ==> us[j].target != us[i].target || us[j].record.key != us[i].record.key
    ensures us[i].target in GroupBy(ByTarget(us))
    ensures Last(GroupBy(ByTarget(us))[us[i].target], us[i].record.key) == Some(us[i].record)
    decreases |us|
  {
    var vs, x, g := us[..|us|-1], us[|us|-1], GroupBy(ByTarget(us));
    assert ByTarget(us)[..|us|-1] == ByTarget(vs);
    assert g == AddTo(GroupBy(ByTarget(vs)), Addressed(x.target, x.record));
    var group := g[x.target];
    assert group[|group|-1] == x.record;
    if i < |us| - 1 {
      GroupEndsWithLast(vs, i);
      if x.target == us[i].target {
        assert group[..|group|-1] == GroupBy(ByTarget(vs))[x.target];
      }
    }
  }

  lemma {:induction false} GroupNonempty(xs: seq<Addressed>, t: Target)
    ensures t in GroupBy(xs) ==> GroupBy(xs)[t] != []
  {
    if xs != [] {
      GroupNonempty(xs[..|xs|-1], t);
    }
  }

  // ---- Properties of the pending map ----

  /** Publishing a batch leaves, for each of its keys, an entry at least as new. */
  lemma {:induction false} PublishAllCovers(p: PendingMap, us: seq<Update>, i: nat)
    requires i < |us|
    ensures KeyOf(us[i]) in PublishAll(p, us) && PublishAll(p, us)[KeyOf(us[i])].commit >= us[i].record.commit
    ensures forall k :: k in p ==> k in PublishAll(p, us) && PublishAll(p, us)[k].commit >= p[k].commit
  {
    var vs := us[..|us|-1];
    if i < |vs| {
      PublishAllCovers(p, vs, i);
      assert us[i] == vs[i];
    } else if vs != [] {
      PublishAllCovers(p, vs, 0);
    }
  }

  /** Publishing a batch touches only the keys it names, and leaves no entry newer than the batch. */
  lemma {:induction false} OtherKeysUntouched(p: PendingMap, us: seq<Update>, c: u64, k: PendingKey)
    requires forall i :: 0 <= i < |us| ==> us[i].record.commit == c
    ensures (forall i :: 0 <= i < |us| ==> KeyOf(us[i]) != k) ==>
      (k in PublishAll(p, us) <==> k in p) && (k in p ==> PublishAll(p, us)[k] == p[k])
    ensures (k in p ==> p[k].commit <= c) && k in PublishAll(p, us) ==> PublishAll(p, us)[k].commit <= c
  {
    if us != [] {
      var n := |us| - 1;
      OtherKeysUntouched(p, us[..n], c, k);
      assert us[..n] + [us[n]] == us;
    }
  }

  /** Of several updates of one key in a batch, readers see the one submitted last. */
  lemma {:induction false} LastSubmittedWins(p: PendingMap, us: seq<Update>, c: u64, i: nat)
    requires i < |us| && forall j :: 0 <= j < |us| ==> us[j].record.commit == c
    requires KeyOf(us[i]) in p ==> p[KeyOf(us[i])].commit <= c
    requires forall j :: i < j < |us| ==> KeyOf(us[j]) != KeyOf(us[i])
    ensures KeyOf(us[i]) in PublishAll(p, us)
    ensures PublishAll(p, us)[KeyOf(us[i])] == PendingValue(us[i].record.key.base, c, us[i].record.value)
    decreases |us|
  {
    var n := |us| - 1;
    if i < n {
      LastSubmittedWins(p, us[..n], c, i);
    } else {
      OtherKeysUntouched(p, us[..n], c, KeyOf(us[i]));
    }
  }

  /** Retiring a batch never removes an entry that a newer update wrote. */
  lemma {:induction false} RetireAllKeepsNewer(p: PendingMap, us: seq<Update>, k: PendingKey)
    requires k in p && forall i :: 0 <= i < |us| && KeyOf(us[i]) == k ==> us[i].record.commit < p[k].commit
    ensures k in RetireAll(p, us) && RetireAll(p, us)[k] == p[k]
  {
    if us != [] {
      RetireAllKeepsNewer(p, us[..|us|-1], k);
    }
  }
}
