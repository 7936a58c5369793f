/** Lookup through a whole chain of opened delta files. */
module ReadView {
  import opened Records
  import opened DeltaFormat
  import DeltaFiles
  import ColumnChain

  /** Files as the store opens them: sorted, canonical, with true commit bounds. */
  ghost predicate Usable(f: OpenFile) {
    Sound(f) && DeltaFiles.Canonical(f) && DeltaFiles.Bounded(f)
  }

  ghost predicate AllUsable(fs: seq<OpenFile>) {
    forall i :: 0 <= i < |fs| ==> Usable(fs[i])
  }

  /** Every record of every file, oldest file first. */
  ghost function AllRecords(fs: seq<OpenFile>): seq<Record>
    requires AllUsable(fs)
  {
    if fs == [] then [] else Contents(fs[0]) + AllRecords(fs[1..])
  }

  lemma SkippedFile(f: OpenFile, best: Option<Record>, k: Key, limit: u64)
    requires Usable(f) && (f.meta.min > limit || (best.Some? && f.meta.max <= best.value.commit))
    ensures Newer(Newest(Contents(f), k, limit), best) == best
  {
    NewestIsGreatest(Contents(f), k, limit);
    if f.meta.min > limit {
      DeltaFiles.PruningIsSound(f, k, limit);
    } else if Newest(Contents(f), k, limit).Some? {
      var i: nat :| NewestAt(Contents(f), k, limit, i) && Contents(f)[i] == Newest(Contents(f), k, limit).value;
      assert Contents(f)[i] == At(f, i);
    }
  }

  /** A lookup in a usable file finds the newest version it holds. */
  lemma UsableAnswers(f: OpenFile, k: Key, limit: u64)
    requires Usable(f)
    ensures DeltaFiles.Found(f, k, limit) == Newest(Contents(f), k, limit)
  {
    hide Newest, Contents, Inside, DeltaFiles.Canonical, DeltaFiles.Found, DeltaFiles.LowBound;
    DeltaFiles.FoundIsAnswer(f, k, limit);
    DeltaFiles.PruningIsSound(f, k, limit);
  }

  /**
   Newest file first, skipping files whose commit bounds rule them out: the same
   answer as the maximum over all records, ties going to the later file.
   */
  method Lookup(deltas: seq<OpenFile>, k: Key, limit: u64) returns (best: Option<Record>)
    requires AllUsable(deltas)
    ensures best == Newest(AllRecords(deltas), k, limit)
  {
    hide Newest, Contents, Inside, DeltaFiles.Canonical, DeltaFiles.Bounded, DeltaFiles.Found;
    best := None;
    var i := |deltas|;
    assert deltas[i..] == [];
    DeltaFiles.NothingToFind([], k, limit);
    while i > 0
      invariant 0 <= i <= |deltas|
      invariant best == Newest(AllRecords(deltas[i..]), k, limit)
    {
      i := i - 1;
      var f := deltas[i];
      assert Usable(f);
      assert deltas[i..][1..] == deltas[i+1..] && deltas[i..][0] == f;
      NewestAppend(Contents(f), AllRecords(deltas[i+1..]), k, limit);
      if f.meta.min > limit || (best.Some? && f.meta.max <= best.value.commit) {
        SkippedFile(f, best, k, limit);
      } else {
        var candidate := DeltaFiles.Lookup(f, k, limit);
        UsableAnswers(f, k, limit);
        if candidate.Some? && (best.None? || candidate.value.commit > best.value.commit) {
          best := candidate;
        }
      }
    }
    assert deltas[0..] == deltas;
  }

  /** The files hold the records the chain stands for. */
  ghost predicate Holds(fs: seq<OpenFile>, ds: seq<ColumnChain.DeltaFile>) {
    && AllUsable(fs) && |fs| == |ds|
    && forall i :: 0 <= i < |fs| ==> Contents(fs[i]) == ds[i].records
  }

  /** So a lookup through the files, falling back to the base, is a read of the view. */
  lemma {:induction false} FilesHoldChain(fs: seq<OpenFile>, ds: seq<ColumnChain.DeltaFile>)
    requires Holds(fs, ds)
    ensures AllRecords(fs) == ColumnChain.Flat(ds)
  {
    hide Contents, Usable, ColumnChain.Flat;
    if fs == [] {
      ColumnChain.FlatNone();
    } else {
      FilesHoldChain(fs[1..], ds[1..]);
      ColumnChain.FlatAppend([ds[0]], ds[1..]);
      ColumnChain.FlatOne(ds[0]);
      assert ds == [ds[0]] + ds[1..];
    }
  }
}
