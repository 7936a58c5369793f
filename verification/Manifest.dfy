/** The manifest as an object: the log file, the live entries and the next sequence number. */
module Manifest {
  import opened Records
  import opened Packing
  import opened ManifestFormat
  import opened ManifestLog

  lemma NamesStep(p: Bytes, count: nat, taken: seq<Name>, name: Name, rest: Bytes)
    requires count > 0 && |p| >= 4 && UnLe(p[..4]) <= |p| - 4
    requires name == p[4..4 + UnLe(p[..4])] && rest == p[4 + UnLe(p[..4])..]
    ensures ValidName(name) ==>
        After(taken, DecodeNames(p, count)) == After(taken + [name], DecodeNames(rest, count - 1))
    ensures !ValidName(name) ==> DecodeNames(p, count) == None
  {
    hide UnLe, ValidName;
    var more := DecodeNames(rest, count - 1);
    if more.Some? {
      assert taken + ([name] + more.value) == (taken + [name]) + more.value;
    }
  }

  function After(taken: seq<Name>, o: Option<seq<Name>>): Option<seq<Name>> {
    match o case None => None case Some(ns) => Some(taken + ns)
  }

  /** The decoding loop over a removal payload. */
  method DecodeRemoval(payload: Bytes) returns (r: Option<seq<Name>>)
    ensures r == DecodeRemove(payload)
  {
    hide UnLe, ValidName;
    if |payload| < 4 {
      return None;
    }
    var count, offset := UnLe(payload[..4]), 4;
    var names: seq<Name> := [];
    var i := 0;
    AfterNothing(DecodeRemove(payload));
    while i < count
      invariant 0 <= i <= count && 4 <= offset <= |payload|
      invariant DecodeRemove(payload) == After(names, DecodeNames(payload[offset..], count - i))
    {
      if |payload| - offset < 4 {
        return None;
      }
      var p := payload[offset..];
      assert payload[offset..offset + 4] == p[..4];
      var size := UnLe(payload[offset..offset + 4]);
      if size > |payload| - offset - 4 {
        return None;
      }
      var name := payload[offset + 4..offset + 4 + size];
      assert name == p[4..4 + size] && payload[offset + 4 + size..] == p[4 + size..];
      NamesStep(p, count - i, names, name, payload[offset + 4 + size..]);
      if !ValidName(name) {
        return None;
      }
      offset := offset + 4 + size;
      names := names + [name];
      i := i + 1;
    }
    assert names + [] == names;
    r := if offset == |payload| then Some(names) else None;
  }

  lemma AfterNothing(o: Option<seq<Name>>)
    ensures After([], o) == o
  {
    if o.Some? {
      assert [] + o.value == o.value;
    }
  }

  /** A strict prefix of one readable record. */
  ghost predicate TornTail(tail: Bytes) {
    exists n, e :: Readable(e) && Torn(tail, n, e)
  }

  /** The complete records of `log`, then at most a torn one. */
  ghost predicate Recoverable(file: Bytes, log: seq<Logged>) {
    Good(log, 0) && LogBytes(log) <= file && TornTail(file[|LogBytes(log)|..])
  }

  lemma RecoverableReopens(file: Bytes, log: seq<Logged>)
    requires Recoverable(file, log)
    ensures Reopen(file).Some? && Holds(Reopen(file).value, log)
  {
    hide Readable, Torn, LogBytes, Good, Parse, Replay, LastSequence;
    var tail := file[|LogBytes(log)|..];
    var n, e :| Readable(e) && Torn(tail, n, e);
    RecoverLog(log, tail, n, e);
    assert file == LogBytes(log) + tail && file[..|LogBytes(log)|] == LogBytes(log);
  }

  class DeltaManifest {
    var file: Bytes
    var active: seq<Entry>
    var next: nat

    ghost function Abs(): State
      reads this
    {
      State(file, active, next)
    }

    constructor (disk: Bytes)
      ensures Abs() == State(disk, [], 1)
    {
      file, active, next := disk, [], 1;
    }

    /** Replays the log, stops at a torn tail and cuts it off. */
    method OpenAndRecover() returns (ok: bool)
      requires active == []
      modifies this
      ensures ok <==> Reopen(old(file)).Some?
      ensures ok ==> Abs() == Reopen(old(file)).value
      ensures !ok ==> file == old(file)
      // a log of complete records and a torn one is recovered exactly
      ensures forall log :: Recoverable(old(file), log) ==> ok && Holds(Abs(), log)
    {
      hide Parse, ReadRecord, Apply, Recoverable, Holds;
      forall log | Recoverable(file, log) ensures Reopen(file).Some? && Holds(Reopen(file).value, log) {
        RecoverableReopens(file, log);
      }
      var offset := 0;
      var last: u64 := 0;
      var stop := false;
      assert file[0..] == file;
      BehindNothing(Parse(file, 0, []));
      while !stop
        invariant 0 <= offset <= |file| && file == old(file)
        invariant Parse(file, 0, []) == Behind(offset, Parse(file[offset..], last, active))
        invariant stop ==> Parse(file[offset..], last, active) == Recovered(active, last, 0)
        decreases !stop, |file| - offset
      {
        ParseStep(file[offset..], last, active);
        match ReadRecord(file[offset..], last) {
          case Stop =>
            stop := true;
          case Bad =>
            return false;
          case Got(n, sequence, edit) =>
            BehindTwice(offset, n, Parse(file[offset..][n..], sequence, Apply(active, edit)));
            assert file[offset..][n..] == file[offset + n..];
            active := Apply(active, edit);
            last := sequence;
            offset := offset + n;
        }
      }
      file := file[..offset];
      next := last + 1;
      ok := true;
    }

    /** Writes one record at the end of the log. */
    method AppendRecord(edit: Edit) returns (ok: bool)
      requires next <= LATEST
      modifies this`file, this`next
      ensures ok <==> |Payload(edit)| <= 0xFFFF_FFFF
      ensures ok ==> file == old(file) + LogRecord(old(next), edit) && next == old(next) + 1
      ensures !ok ==> file == old(file) && next == old(next)
    {
      hide Payload, LogChecksum, PackLogHeader;
      var payload := Payload(edit);
      if |payload| > 0xFFFF_FFFF {
        return false;
      }
      var h := LogHeader(MANIFEST_MAGIC, MANIFEST_VERSION, TypeOf(edit), 0, |payload|, next, 0);
      h := h.(checksum := LogChecksum(h, payload));
      file := file + (PackLogHeader(h) + payload);
      next := next + 1;
      ok := true;
    }

    method AppendAdd(entry: Entry) returns (ok: bool)
      requires next <= LATEST
      modifies this
      ensures ok <==> ValidName(entry.name) && |Payload(Add(entry))| <= 0xFFFF_FFFF
      ensures if ok then Do(old(Abs()), Append(Add(entry))) == Some(Abs()) else Abs() == old(Abs())
    {
      hide Payload, LogRecord, ValidName;
      if !ValidName(entry.name) {
        return false;
      }
      ok := AppendRecord(Add(entry));
      if ok {
        active := ApplyAdd(active, entry);
      }
    }

    /** An empty removal succeeds without touching the log. */
    method AppendRemove(names: seq<Name>) returns (ok: bool)
      requires next <= LATEST
      modifies this
      ensures ok <==> names == [] || (ValidNames(names) && |Payload(Remove(names))| <= 0xFFFF_FFFF)
      ensures if ok && names != [] then Do(old(Abs()), Append(Remove(names))) == Some(Abs()) else Abs() == old(Abs())
    {
      hide Payload, LogRecord, ValidNames;
      if names == [] {
        return true;
      }
      if !ValidNames(names) {
        return false;
      }
      ok := AppendRecord(Remove(names));
      if ok {
        active := ApplyRemove(active, names);
      }
    }
  }

  lemma BehindNothing(o: Outcome)
    ensures Behind(0, o) == o
  {}

  lemma BehindTwice(m: nat, n: nat, o: Outcome)
    ensures Behind(m, Behind(n, o)) == Behind(m + n, o)
  {}
}
