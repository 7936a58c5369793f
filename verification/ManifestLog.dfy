/**
 The append-only manifest: edits are appended with increasing sequence numbers;
 recovery replays the log up to a torn tail.
 */
module ManifestLog {
  import opened Records
  import opened Packing
  import opened DeltaFormat
  import opened ManifestFormat

  // ---- The entry list ----

  function IndexOf(active: seq<Entry>, name: Name): (i: nat)
    ensures i <= |active|
    ensures i < |active| ==> active[i].name == name
    ensures forall j :: 0 <= j < i ==> active[j].name != name
  {
    if active == [] || active[0].name == name then 0 else 1 + IndexOf(active[1..], name)
  }

  function ApplyAdd(active: seq<Entry>, e: Entry): seq<Entry> {
    var i := IndexOf(active, e.name);
    if i == |active| then active + [e] else active[i := e]
  }

  function ApplyRemove(active: seq<Entry>, names: seq<Name>): seq<Entry> {
    if active == [] then []
    else if active[0].name in names then ApplyRemove(active[1..], names)
    else [active[0]] + ApplyRemove(active[1..], names)
  }

  function Apply(active: seq<Entry>, e: Edit): seq<Entry> {
    match e case Add(entry) => ApplyAdd(active, entry) case Remove(names) => ApplyRemove(active, names)
  }

  /** An edit with its sequence number, as one log record carries it. */
  datatype Logged = Logged(sequence: u64, edit: Edit)

  /** The entries after replaying numbered edits in order. */
  function Replay(active: seq<Entry>, log: seq<Logged>): seq<Entry>
    decreases |log|
  {
    if log == [] then active else Replay(Apply(active, log[0].edit), log[1..])
  }

  // ---- The log ----

  /** An edit recovery can read back: valid names and a payload within the limit. */
  predicate Readable(e: Edit) {
    ValidEdit(e) && |Payload(e)| <= PAYLOAD_LIMIT
  }

  /** Readable edits with strictly increasing sequence numbers above `last`. */
  predicate Good(log: seq<Logged>, last: u64) {
    log == [] || (log[0].sequence > last && Readable(log[0].edit) && Good(log[1..], log[0].sequence))
  }

  function LogBytes(log: seq<Logged>): Bytes {
    if log == [] then [] else LogRecord(log[0].sequence, log[0].edit) + LogBytes(log[1..])
  }

  function LastSequence(log: seq<Logged>, last: u64): u64 {
    if log == [] then last else LastSequence(log[1..], log[0].sequence)
  }

  // ---- Recovery ----

  datatype Outcome = Corrupt | Recovered(active: seq<Entry>, last: u64, used: nat)

  function Behind(n: nat, o: Outcome): Outcome {
    match o case Corrupt => Corrupt case Recovered(a, l, used) => Recovered(a, l, n + used)
  }

  /** What the bytes at the read position start with. */
  datatype Step = Stop | Bad | Got(size: nat, sequence: u64, edit: Edit)

  function ReadRecord(file: Bytes, last: u64): (r: Step)
    ensures r.Got? ==> 0 < r.size <= |file| && r.sequence > last
  {
    if |file| < LOG_HEADER_BYTES then Stop
    else
      var h := UnpackLogHeader(file);
      if h.magic != MANIFEST_MAGIC || h.version != MANIFEST_VERSION || (h.kind != 1 && h.kind != 2) ||
        h.size > PAYLOAD_LIMIT
      then Bad
      else
        var n := LOG_HEADER_BYTES + h.size;
        if n > |file| then Stop
        else if LogChecksum(h, file[LOG_HEADER_BYTES..n]) != h.checksum then (if n == |file| then Stop else Bad)
        else if h.sequence <= last then Bad
        else
          match DecodeEdit(h.kind, file[LOG_HEADER_BYTES..n])
          case None => Bad
          case Some(e) => Got(n, h.sequence, e)
  }

  /** What replaying the bytes from here on yields. */
  function Parse(file: Bytes, last: u64, active: seq<Entry>): (o: Outcome)
    ensures o.Recovered? ==> o.used <= |file| && o.last >= last
    decreases |file|
  {
    match ReadRecord(file, last)
    case Stop => Recovered(active, last, 0)
    case Bad => Corrupt
    case Got(n, sequence, e) => Behind(n, Parse(file[n..], sequence, Apply(active, e)))
  }

  /** A strict prefix of one record, or nothing. */
  predicate Torn(tail: Bytes, sequence: u64, e: Edit) {
    |tail| < LOG_HEADER_BYTES + |Payload(e)| && tail == LogRecord(sequence, e)[..|tail|]
  }

  lemma ReadTorn(tail: Bytes, sequence: u64, e: Edit, last: u64)
    requires Readable(e) && Torn(tail, sequence, e)
    ensures ReadRecord(tail, last) == Stop
  {
    hide UnpackLogHeader, PackLogHeader, LogChecksum, DecodeEdit, Payload, ValidEdit, Apply;
    if |tail| >= LOG_HEADER_BYTES {
      var h := HeaderFor(sequence, TypeOf(e), Payload(e));
      LogHeaderRoundTrip(h, tail[LOG_HEADER_BYTES..]);
      assert tail == PackLogHeader(h) + tail[LOG_HEADER_BYTES..];
    }
  }

  lemma ReadWritten(sequence: u64, e: Edit, rest: Bytes, last: u64)
    requires Readable(e) && sequence > last
    ensures ReadRecord(LogRecord(sequence, e) + rest, last) == Got(LOG_HEADER_BYTES + |Payload(e)|, sequence, e)
  {
    hide UnpackLogHeader, PackLogHeader, LogChecksum, DecodeEdit, Payload, ValidEdit, Apply;
    var h := HeaderFor(sequence, TypeOf(e), Payload(e));
    var file, n := LogRecord(sequence, e) + rest, LOG_HEADER_BYTES + |Payload(e)|;
    LogHeaderRoundTrip(h, Payload(e) + rest);
    assert file == PackLogHeader(h) + (Payload(e) + rest);
    assert file[LOG_HEADER_BYTES..n] == Payload(e) && file[n..] == rest;
    ChecksumIgnoresItself(sequence, TypeOf(e), Payload(e));
    EditRoundTrip(e);
  }

  lemma ChecksumIgnoresItself(sequence: u64, kind: byte, payload: Bytes)
    ensures var h := HeaderFor(sequence, kind, payload); LogChecksum(h, payload) == h.checksum
  {
    hide Extend, PackLogHeader;
    var h := HeaderFor(sequence, kind, payload);
    assert h.(checksum := 0) ==
        LogHeader(MANIFEST_MAGIC, MANIFEST_VERSION, kind, 0, |payload| % 0x1_0000_0000, sequence, 0);
  }

  // ---- Damaged records ----

  /** A record whose sum does not match ends replay at the end of the log and is an error elsewhere. */
  lemma MismatchStops(file: Bytes, last: u64)
    requires |file| >= LOG_HEADER_BYTES
    requires var h := UnpackLogHeader(file); LOG_HEADER_BYTES + h.size <= |file|
    requires var h := UnpackLogHeader(file);
             h.checksum != LogChecksum(h, file[LOG_HEADER_BYTES..LOG_HEADER_BYTES + h.size])
    ensures !ReadRecord(file, last).Got?
    ensures var h := UnpackLogHeader(file);
            h.magic == MANIFEST_MAGIC && h.version == MANIFEST_VERSION && (h.kind == 1 || h.kind == 2) &&
            h.size <= PAYLOAD_LIMIT ==>
              ReadRecord(file, last) == if LOG_HEADER_BYTES + h.size == |file| then Stop else Bad
  {
    hide UnpackLogHeader, LogChecksum, DecodeEdit;
  }

  lemma WrittenFields(sequence: u64, e: Edit, rest: Bytes)
    requires Readable(e)
    ensures var h := UnpackLogHeader(LogRecord(sequence, e) + rest);
            && h == HeaderFor(sequence, TypeOf(e), Payload(e)) && h.size == |Payload(e)|
            && LogChecksum(h, Payload(e)) == h.checksum
  {
    hide UnpackLogHeader, PackLogHeader, LogChecksum, Payload, ValidEdit;
    var h := HeaderFor(sequence, TypeOf(e), Payload(e));
    LogHeaderRoundTrip(h, Payload(e) + rest);
    assert LogRecord(sequence, e) + rest == PackLogHeader(h) + (Payload(e) + rest);
    ChecksumIgnoresItself(sequence, TypeOf(e), Payload(e));
  }

  /** The two sides of the comparison no longer agree after a change of one byte. */
  lemma SumDisagrees(b: Bytes, n: nat, i: nat, x: byte)
    requires LOG_HEADER_BYTES <= n <= |b| && i < n && x != b[i]
    requires UnpackLogHeader(b).checksum == LogChecksum(UnpackLogHeader(b), b[LOG_HEADER_BYTES..n])
    ensures var c := b[i := x]; UnpackLogHeader(c).checksum != LogChecksum(UnpackLogHeader(c), c[LOG_HEADER_BYTES..n])
  {
    hide UnpackLogHeader, LogChecksum, Extend, Le, UnLe;
    var c := b[i := x];
    LogFields(b);
    LogFields(c);
    LogSummed(b, b[LOG_HEADER_BYTES..n]);
    LogSummed(c, c[LOG_HEADER_BYTES..n]);
    var p, q := b[..28] + Le(0, 8) + b[LOG_HEADER_BYTES..n], c[..28] + Le(0, 8) + c[LOG_HEADER_BYTES..n];
    if 28 <= i < LOG_HEADER_BYTES {
      assert p == q;
      assert b[28..36][i - 28] == b[i] && c[28..36][i - 28] == x;
    } else {
      assert c[28..36] == b[28..36];
      assert q == p[i := x];
      OneByteChangesSum(FNV_OFFSET, p, i, x);
    }
  }

  /**
   A complete record with one changed byte is never replayed, unless the change is in
   its length. Behind the length it ends replay when it ends the log, as a torn record
   does, and is an error anywhere else; in the format or version it is an error.
   */
  lemma ReadDamaged(sequence: u64, e: Edit, i: nat, x: byte, rest: Bytes, last: u64)
    requires Readable(e) && i < |LogRecord(sequence, e)| && x != LogRecord(sequence, e)[i] && !(16 <= i < 20)
    ensures !ReadRecord(LogRecord(sequence, e)[i := x] + rest, last).Got?
    ensures i >= 20 ==> ReadRecord(LogRecord(sequence, e)[i := x] + rest, last) == if rest == [] then Stop else Bad
    ensures i < 12 ==> ReadRecord(LogRecord(sequence, e)[i := x] + rest, last) == Bad
  {
    hide UnpackLogHeader, LogChecksum, LogRecord, Payload, UnLe, DecodeEdit, ReadRecord, ValidEdit;
    var r := LogRecord(sequence, e);
    var b, n := r + rest, |r|;
    var c := b[i := x];
    assert c == r[i := x] + rest && n == LOG_HEADER_BYTES + |Payload(e)|;
    WrittenFields(sequence, e, rest);
    assert b[LOG_HEADER_BYTES..n] == Payload(e) by { PayloadOf(sequence, e); }
    SumDisagrees(b, n, i, x);
    LogFields(b);
    LogFields(c);
    assert c[16..20] == b[16..20];
    MismatchStops(c, last);
    if i >= 20 {
      assert c[..8] == b[..8] && c[8..12] == b[8..12] && c[12..13] == b[12..13];
    } else if i < 12 {
      FormatChanged(b, c, i, x);
      ForeignIsBad(c, last);
    }
  }

  lemma PayloadOf(sequence: u64, e: Edit)
    ensures |LogRecord(sequence, e)| == LOG_HEADER_BYTES + |Payload(e)|
    ensures LogRecord(sequence, e)[LOG_HEADER_BYTES..] == Payload(e)
  {
    hide PackLogHeader, Payload;
  }

  lemma FormatChanged(b: Bytes, c: Bytes, i: nat, x: byte)
    requires |b| >= 12 && i < 12 && x != b[i] && c == b[i := x]
    ensures UnLe(c[..8]) != UnLe(b[..8]) || UnLe(c[8..12]) != UnLe(b[8..12])
  {
    hide UnLe, Le;
    LeOfUnLe(b[..8]);
    LeOfUnLe(c[..8]);
    LeOfUnLe(b[8..12]);
    LeOfUnLe(c[8..12]);
    if i < 8 {
      assert b[..8][i] == b[i] && c[..8][i] == x;
    } else {
      assert b[8..12][i - 8] == b[i] && c[8..12][i - 8] == x;
    }
  }

  /** A header of another format, version or kind, or one that declares too much, is an error wherever it stands. */
  lemma ForeignIsBad(file: Bytes, last: u64)
    requires |file| >= LOG_HEADER_BYTES
    requires var h := UnpackLogHeader(file);
             h.magic != MANIFEST_MAGIC || h.version != MANIFEST_VERSION || (h.kind != 1 && h.kind != 2) ||
             h.size > PAYLOAD_LIMIT
    ensures ReadRecord(file, last) == Bad
  {
    hide UnpackLogHeader, LogChecksum, DecodeEdit;
  }

  /** Padding bytes, which decoding does not look at, are zero. */
  predicate ZeroPads(file: Bytes, e: Edit) {
    |file| >= 40 && file[13..16] == [0, 0, 0] && (e.Add? ==> file[38..40] == [0, 0])
  }

  /** Whatever is replayed was written: the bytes are exactly the record of this edit under this number. */
  lemma ReadIsWritten(file: Bytes, last: u64)
    requires ReadRecord(file, last).Got?
    ensures var r := ReadRecord(file, last);
            && Readable(r.edit) && r.size == LOG_HEADER_BYTES + |Payload(r.edit)|
            && (ZeroPads(file, r.edit) ==> file[..r.size] == LogRecord(r.sequence, r.edit))
  {
    hide UnpackLogHeader, PackLogHeader, LogChecksum, DecodeAdd, DecodeRemove, EncodeAdd, EncodeRemove, ValidName;
    hide ValidNames;
    hide Le, UnLe;
    var r, h := ReadRecord(file, last), UnpackLogHeader(file);
    var payload := file[LOG_HEADER_BYTES..r.size];
    LogHeaderBytes(file);
    LogFields(file);
    if h.kind == 1 {
      AddCanonical(payload);
      AddSize(payload);
    } else {
      RemoveCanonical(payload);
    }
    if ZeroPads(file, r.edit) {
      ZeroPad(h.pad);
      if h.kind == 1 {
        assert r.edit.Add? && |payload| >= ADD_BYTES;
        SliceOfSlice(file, LOG_HEADER_BYTES, r.size, 2, 4);
        assert payload[2..4] == file[38..40];
      }
      SumIgnoresField(h, payload);
      assert h.(checksum := 0) ==
          LogHeader(MANIFEST_MAGIC, MANIFEST_VERSION, TypeOf(r.edit), 0, |payload|, r.sequence, 0);
      assert h == HeaderFor(r.sequence, TypeOf(r.edit), payload);
      assert file[..r.size] == file[..LOG_HEADER_BYTES] + payload;
    }
  }

  lemma SliceOfSlice(b: Bytes, from: nat, to: nat, i: nat, j: nat)
    requires from <= to <= |b| && i <= j <= to - from
    ensures b[from..to][i..j] == b[from + i..from + j]
  {
    var s, t := b[from..to][i..j], b[from + i..from + j];
    assert |s| == |t| && forall k :: 0 <= k < |s| ==> s[k] == b[from + i + k];
  }

  lemma SumIgnoresField(h: LogHeader, payload: Bytes)
    ensures LogChecksum(h, payload) == LogChecksum(h.(checksum := 0), payload)
  {
    hide PackLogHeader, Extend;
  }

  lemma AddSize(p: Bytes)
    requires DecodeAdd(p).Some?
    ensures |EncodeAdd(DecodeAdd(p).value)| == |p|
  {
    hide Unpack, Pack, ValidName;
  }

  lemma ZeroPad(n: u24)
    ensures Le(n, 3) == [0, 0, 0] ==> n == 0
  {
    hide Le;
    Powers();
    UnLeOfLe(n, 3);
    assert Le(n, 3) == [0, 0, 0] ==> UnLe([0, 0, 0]) == n;
    assert [0, 0, 0][1..] == [0, 0] && [0, 0][1..] == [0] && UnLe([0]) == 0 && UnLe([0, 0]) == 0;
  }

  lemma ParseStep(file: Bytes, last: u64, active: seq<Entry>)
    ensures var r := ReadRecord(file, last);
            Parse(file, last, active) ==
              if r.Stop? then Recovered(active, last, 0)
              else if r.Bad? then Corrupt
              else Behind(r.size, Parse(file[r.size..], r.sequence, Apply(active, r.edit)))
  {}

  /** The functions of a log, one record at a time. */
  lemma LogUnfolds(log: seq<Logged>, last: u64, active: seq<Entry>)
    requires log != []
    ensures LogBytes(log) == LogRecord(log[0].sequence, log[0].edit) + LogBytes(log[1..])
    ensures Replay(active, log) == Replay(Apply(active, log[0].edit), log[1..])
    ensures LastSequence(log, last) == LastSequence(log[1..], log[0].sequence)
    ensures Good(log, last) <==> log[0].sequence > last && Readable(log[0].edit) && Good(log[1..], log[0].sequence)
  {
    hide LogRecord, Readable, Apply;
  }

  lemma LogEmpty(last: u64, active: seq<Entry>)
    ensures LogBytes([]) == [] && Replay(active, []) == active && LastSequence([], last) == last && Good([], last)
  {}

  /** Replaying a good log brings recovery to whatever follows it. */
  lemma {:induction false} ParseLog(log: seq<Logged>, last: u64, active: seq<Entry>, rest: Bytes)
    requires Good(log, last)
    ensures Parse(LogBytes(log) + rest, last, active)
         == Behind(|LogBytes(log)|, Parse(rest, LastSequence(log, last), Replay(active, log)))
    decreases |log|
  {
    hide LogRecord, ReadRecord, Readable, Apply, Parse, LogBytes, Replay, LastSequence, Good;
    if log == [] {
      LogEmpty(last, active);
      assert LogBytes(log) + rest == rest;
    } else {
      var x, after := log[0], LogBytes(log[1..]) + rest;
      LogUnfolds(log, last, active);
      ReadWritten(x.sequence, x.edit, after, last);
      var file := LogBytes(log) + rest;
      assert file == LogRecord(x.sequence, x.edit) + after;
      ParseStep(file, last, active);
      assert file[|LogRecord(x.sequence, x.edit)|..] == after;
      ParseLog(log[1..], x.sequence, Apply(active, x.edit), rest);
    }
  }

  /** Whatever the file holds: recovery returns the replay of the complete, readable records it starts with. */
  lemma {:induction false} ParseIsReplay(file: Bytes, last: u64, active: seq<Entry>) returns (log: seq<Logged>)
    requires Parse(file, last, active).Recovered?
    ensures Good(log, last)
    ensures Parse(file, last, active) == Recovered(Replay(active, log), LastSequence(log, last), |LogBytes(log)|)
    decreases |file|
  {
    hide LogRecord, ReadRecord, Readable, Apply, LogBytes, Replay, LastSequence, Good, Payload;
    ParseStep(file, last, active);
    var r := ReadRecord(file, last);
    if r.Got? {
      ReadIsWritten(file, last);
      var rest := ParseIsReplay(file[r.size..], r.sequence, Apply(active, r.edit));
      log := [Logged(r.sequence, r.edit)] + rest;
      assert log[1..] == rest;
      LogUnfolds(log, last, active);
    } else {
      log := [];
      LogEmpty(last, active);
    }
  }

  /** Recovery of a good log with a torn tail is exact. */
  lemma RecoverLog(log: seq<Logged>, tail: Bytes, sequence: u64, e: Edit)
    requires Good(log, 0) && Readable(e) && Torn(tail, sequence, e)
    ensures Parse(LogBytes(log) + tail, 0, []) == Recovered(Replay([], log), LastSequence(log, 0), |LogBytes(log)|)
  {
    hide LogRecord, ReadRecord, Readable, Apply, Torn, LogBytes, Good, Replay;
    ParseLog(log, 0, [], tail);
    ReadTorn(tail, sequence, e, LastSequence(log, 0));
  }

  /**
   A damaged record behind a good log: at the end it is cut off and the log recovered
   exactly, elsewhere recovery reports the log as corrupt.
   */
  lemma RecoverDamaged(log: seq<Logged>, x: Logged, i: nat, y: byte, rest: Bytes)
    requires Good(log, 0) && Readable(x.edit)
    requires 20 <= i < |LogRecord(x.sequence, x.edit)| && y != LogRecord(x.sequence, x.edit)[i]
    ensures Parse(LogBytes(log) + LogRecord(x.sequence, x.edit)[i := y] + rest, 0, []) ==
              if rest == [] then Recovered(Replay([], log), LastSequence(log, 0), |LogBytes(log)|) else Corrupt
  {
    hide LogRecord, ReadRecord, Readable, Apply, LogBytes, Good, Replay;
    var bad := LogRecord(x.sequence, x.edit)[i := y] + rest;
    assert LogBytes(log) + LogRecord(x.sequence, x.edit)[i := y] + rest == LogBytes(log) + bad;
    ParseLog(log, 0, [], bad);
    ReadDamaged(x.sequence, x.edit, i, y, rest, LastSequence(log, 0));
  }

  // ---- Appending ----

  lemma {:induction false} BytesAppend(log: seq<Logged>, x: Logged)
    ensures LogBytes(log + [x]) == LogBytes(log) + LogRecord(x.sequence, x.edit)
    decreases |log|
  {
    hide LogRecord, LogBytes, Good, Replay, LastSequence;
    var l := log + [x];
    if log == [] {
      LogEmpty(0, []);
      assert l[1..] == [] && l[0] == x;
      LogUnfolds(l, 0, []);
      assert LogRecord(x.sequence, x.edit) + [] == [] + LogRecord(x.sequence, x.edit);
    } else {
      var t := log[1..];
      assert l[1..] == t + [x] && l[0] == log[0];
      LogUnfolds(l, 0, []);
      LogUnfolds(log, 0, []);
      BytesAppend(t, x);
      Associates(LogRecord(log[0].sequence, log[0].edit), LogBytes(t), LogRecord(x.sequence, x.edit));
    }
  }

  lemma Associates(a: Bytes, b: Bytes, c: Bytes)
    ensures a + (b + c) == (a + b) + c
  {}

  lemma {:induction false} ReplayAppend(log: seq<Logged>, x: Logged, last: u64, active: seq<Entry>)
    ensures Replay(active, log + [x]) == Apply(Replay(active, log), x.edit)
    ensures LastSequence(log + [x], last) == x.sequence
    ensures Good(log, last) && Readable(x.edit) && x.sequence > LastSequence(log, last) ==> Good(log + [x], last)
    decreases |log|
  {
    hide LogRecord, Readable, Apply, LogBytes, Replay, LastSequence, Good;
    var l := log + [x];
    if log == [] {
      LogEmpty(last, active);
      LogEmpty(x.sequence, Apply(active, x.edit));
      assert l[1..] == [] && l[0] == x;
      LogUnfolds(l, last, active);
    } else {
      var t := log[1..];
      assert l[1..] == t + [x] && l[0] == log[0];
      LogUnfolds(l, last, active);
      LogUnfolds(log, last, active);
      ReplayAppend(t, x, log[0].sequence, Apply(active, log[0].edit));
    }
  }

  lemma {:induction false} GoodPrefix(log: seq<Logged>, last: u64)
    requires log != [] && Good(log, last)
    ensures Good(log[..|log|-1], last) && Readable(log[|log|-1].edit)
    decreases |log|
  {
    hide Readable;
    if |log| > 1 {
      GoodPrefix(log[1..], log[0].sequence);
      assert log[..|log|-1][1..] == log[1..][..|log|-2];
    }
  }

  // ---- Sessions of appends, crashes and restarts ----

  /** The manifest of a running process: the log on disk, the entries and the next sequence number. */
  datatype State = State(file: Bytes, active: seq<Entry>, next: nat)

  datatype Event =
    | Append(edit: Edit)
    | Restart(lost: nat)   // a crash drops `lost` bytes of the log's end, then recovery runs
    | Garbled(at: nat, x: byte)   // a crash leaves a wrong byte in the last record, then recovery runs

  ghost predicate Holds(s: State, log: seq<Logged>) {
    Good(log, 0) && s == State(LogBytes(log), Replay([], log), LastSequence(log, 0) + 1)
  }

  function Reopen(file: Bytes): Option<State> {
    match Parse(file, 0, [])
    case Corrupt => None
    case Recovered(active, last, used) => Some(State(file[..used], active, last + 1))
  }

  function Do(s: State, e: Event): Option<State> {
    match e
    case Append(edit) =>
      if s.next > LATEST then None
      else Some(State(s.file + LogRecord(s.next, edit), Apply(s.active, edit), s.next + 1))
    case Restart(lost) =>
      if lost > |s.file| then None else Reopen(s.file[..|s.file| - lost])
    case Garbled(at, x) =>
      if at >= |s.file| then None else Reopen(s.file[at := x])
  }

  function DoAll(s: State, es: seq<Event>): Option<State> {
    if es == [] then Some(s)
    else
      match DoAll(s, es[..|es|-1])
      case None => None
      case Some(t) => Do(t, es[|es|-1])
  }

  /** The complete records left on disk after each event. */
  ghost function LogAfter(log: seq<Logged>, e: Event): seq<Logged>
  {
    match e
    case Append(edit) => if LastSequence(log, 0) < LATEST then log + [Logged(LastSequence(log, 0) + 1, edit)] else log
    case Restart(lost) => if lost == 0 || log == [] then log else log[..|log|-1]
    case Garbled(_, _) => if log == [] then log else log[..|log|-1]
  }

  /** Appended edits are readable, and a crash damages at most the last record. */
  ghost predicate Allowed(log: seq<Logged>, e: Event) {
    match e
    case Append(edit) => Readable(edit) && LastSequence(log, 0) < LATEST
    case Restart(lost) => lost <= if log == [] then 0 else LOG_HEADER_BYTES + |Payload(log[|log|-1].edit)|
    case Garbled(at, x) =>
      && log != [] && |LogBytes(log[..|log|-1])| + 20 <= at < |LogBytes(log)| && x != LogBytes(log)[at]
  }

  lemma EventKeeps(s: State, log: seq<Logged>, e: Event)
    requires Holds(s, log) && Allowed(log, e)
    ensures Do(s, e).Some? && Holds(Do(s, e).value, LogAfter(log, e))
  {
    hide LogRecord, Parse, Readable, Replay, Apply, LogBytes, LastSequence, Payload, Good;
    match e {
      case Append(edit) =>
        BytesAppend(log, Logged(LastSequence(log, 0) + 1, edit));
        ReplayAppend(log, Logged(LastSequence(log, 0) + 1, edit), 0, []);
      case Restart(lost) =>
        if log == [] {
          assert Do(s, e) == Reopen(LogBytes([])) by { assert s.file[..|s.file|] == s.file; }
          EmptyReopens();
        } else {
          RestartKeeps(log, lost);
        }
      case Garbled(at, x) => GarbledKeeps(log, at, x);
    }
  }

  lemma GarbledKeeps(log: seq<Logged>, at: nat, x: byte)
    requires Good(log, 0) && Allowed(log, Garbled(at, x))
    ensures at < |LogBytes(log)| && Reopen(LogBytes(log)[at := x]).Some?
    ensures Holds(Reopen(LogBytes(log)[at := x]).value, LogAfter(log, Garbled(at, x)))
  {
    hide LogRecord, Parse, Readable, Replay, Apply, LogBytes, LastSequence, Payload, Good;
    var y, t := log[|log|-1], log[..|log|-1];
    GoodPrefix(log, 0);
    BytesAppend(t, y);
    assert t + [y] == log;
    var r, n := LogRecord(y.sequence, y.edit), |LogBytes(t)|;
    var file := LogBytes(log)[at := x];
    assert file == LogBytes(t) + r[at - n := x] + [];
    assert LogBytes(log)[at] == r[at - n];
    RecoverDamaged(t, y, at - n, x, []);
    assert file[..n] == LogBytes(t);
  }

  lemma EmptyReopens()
    ensures Reopen(LogBytes([])) == Some(State([], [], 1))
    ensures LogBytes([]) == [] && Replay([], []) == [] && LastSequence([], 0) == 0
  {}

  lemma RestartKeeps(log: seq<Logged>, lost: nat)
    requires Good(log, 0) && log != []
    requires lost <= LOG_HEADER_BYTES + |Payload(log[|log|-1].edit)|
    ensures lost <= |LogBytes(log)|
    ensures Reopen(LogBytes(log)[..|LogBytes(log)| - lost]).Some?
    ensures Holds(Reopen(LogBytes(log)[..|LogBytes(log)| - lost]).value, LogAfter(log, Restart(lost)))
  {
    hide LogRecord, Parse, Readable, Replay, Apply, LogBytes, LastSequence, Payload, Good;
    var x, t := log[|log|-1], log[..|log|-1];
    GoodPrefix(log, 0);
    BytesAppend(t, x);
    ReplayAppend(t, x, 0, []);
    assert t + [x] == log;
    var file := LogBytes(log)[..|LogBytes(log)| - lost];
    if lost == 0 {
      assert file == LogBytes(log) + [];
      assert Torn([], x.sequence, x.edit);
      RecoverLog(log, [], x.sequence, x.edit);
    } else {
      var tail := LogRecord(x.sequence, x.edit)[..LOG_HEADER_BYTES + |Payload(x.edit)| - lost];
      assert file == LogBytes(t) + tail;
      assert Torn(tail, x.sequence, x.edit);
      RecoverLog(t, tail, x.sequence, x.edit);
      assert file[..|LogBytes(t)|] == LogBytes(t);
    }
  }

  ghost function LogAfterAll(es: seq<Event>): seq<Logged> {
    if es == [] then [] else LogAfter(LogAfterAll(es[..|es|-1]), es[|es|-1])
  }

  ghost predicate AllowedAll(es: seq<Event>) {
    es == [] || (AllowedAll(es[..|es|-1]) && Allowed(LogAfterAll(es[..|es|-1]), es[|es|-1]))
  }

  /**
   After any appends, crashes and restarts, whether a crash cut the last record off or
   left a wrong byte in it, the manifest holds exactly the replay
   of the complete records, in memory and on disk, and its sequence numbers are
   strictly increasing.
   */
  lemma {:induction false} SessionsRecover(es: seq<Event>)
    requires AllowedAll(es)
    ensures DoAll(State([], [], 1), es).Some? && Holds(DoAll(State([], [], 1), es).value, LogAfterAll(es))
  {
    hide Holds, Allowed, Do, LogAfter;
    if es == [] {
      assert Holds(State([], [], 1), []) by { EmptyHolds(); }
    } else {
      SessionsRecover(es[..|es|-1]);
      EventKeeps(DoAll(State([], [], 1), es[..|es|-1]).value, LogAfterAll(es[..|es|-1]), es[|es|-1]);
    }
  }

  lemma EmptyHolds()
    ensures Holds(State([], [], 1), [])
  {}

  // ---- The payload limit ----

  /**
   An append accepts payloads of any 32-bit size while recovery refuses those over
   the limit: exactly the appends within the limit can be read back.
   */
  lemma AppendReadsBackIff(log: seq<Logged>, e: Edit)
    requires Good(log, 0) && ValidEdit(e) && |Payload(e)| < 0x1_0000_0000 && LastSequence(log, 0) < LATEST
    ensures Reopen(LogBytes(log) + LogRecord(LastSequence(log, 0) + 1, e)).Some? <==> |Payload(e)| <= PAYLOAD_LIMIT
  {
    hide LogRecord, ReadRecord, Readable, Apply, LogBytes, Good, Replay, Payload, ValidEdit;
    var n := LastSequence(log, 0) + 1;
    ParseLog(log, 0, [], LogRecord(n, e));
    if |Payload(e)| <= PAYLOAD_LIMIT {
      assert Readable(e) by { IsReadable(e); }
      ReadWritten(n, e, [], LastSequence(log, 0));
      assert LogRecord(n, e) + [] == LogRecord(n, e);
      assert LogRecord(n, e)[|LogRecord(n, e)|..] == [];
      ReadNothing(n);
    } else {
      ReadOversized(n, e, n - 1);
    }
  }

  lemma IsReadable(e: Edit)
    requires ValidEdit(e) && |Payload(e)| <= PAYLOAD_LIMIT
    ensures Readable(e)
  {}

  lemma ReadNothing(last: u64)
    ensures ReadRecord([], last) == Stop
  {}

  lemma ReadOversized(sequence: u64, e: Edit, last: u64)
    requires PAYLOAD_LIMIT < |Payload(e)| < 0x1_0000_0000
    ensures ReadRecord(LogRecord(sequence, e), last) == Bad
  {
    hide UnpackLogHeader, PackLogHeader, LogChecksum, DecodeEdit, Payload, ValidEdit, Apply;
    var h := HeaderFor(sequence, TypeOf(e), Payload(e));
    LogHeaderRoundTrip(h, Payload(e));
  }

  /** Such an append exists: removing one file whose name has 2^30 letters. */
  lemma OversizedEditExists()
    ensures exists e :: ValidEdit(e) && PAYLOAD_LIMIT < |Payload(e)| < 0x1_0000_0000
  {
    var name: Name := seq(PAYLOAD_LIMIT, i => 97);
    var e := Remove([name]);
    assert EncodeNames([name]) == Le(|name|, 4) + name + [];
    assert |Payload(e)| == 8 + PAYLOAD_LIMIT;
    assert name[0] == 97;
    assert SLASH !in name;
    assert ValidEdit(e);
  }

  // ---- The entry list as a map ----

  ghost predicate Distinct(active: seq<Entry>) {
    forall i, j :: 0 <= i < j < |active| ==> active[i].name != active[j].name
  }

  /** The live entry of each file name. */
  ghost predicate Live(active: seq<Entry>, e: Entry) {
    exists i :: 0 <= i < |active| && active[i] == e
  }

  /** An addition replaces the entry of its name in place, or goes last; nothing else moves. */
  lemma AddIsUpdate(active: seq<Entry>, e: Entry)
    requires Distinct(active)
    ensures Distinct(ApplyAdd(active, e))
    ensures forall x :: Live(ApplyAdd(active, e), x) <==> x == e || (Live(active, x) && x.name != e.name)
    ensures forall i :: 0 <= i < |active| && active[i].name != e.name ==> ApplyAdd(active, e)[i] == active[i]
  {
    var i, after := IndexOf(active, e.name), ApplyAdd(active, e);
    assert after[i] == e;
    forall x ensures Live(after, x) <==> x == e || (Live(active, x) && x.name != e.name) {
      if Live(active, x) && x.name != e.name {
        var j :| 0 <= j < |active| && active[j] == x;
        assert after[j] == x;
      }
      if x == e {
        assert after[i] == x;
      }
      if Live(after, x) && x != e {
        var j :| 0 <= j < |after| && after[j] == x;
        assert active[j] == x;
      }
    }
  }

  /** A removal drops exactly the named entries. */
  lemma {:induction false} RemoveIsFilter(active: seq<Entry>, names: seq<Name>)
    requires Distinct(active)
    ensures Distinct(ApplyRemove(active, names))
    ensures forall x :: Live(ApplyRemove(active, names), x) <==> Live(active, x) && x.name !in names
  {
    if active != [] {
      var y, t := active[0], active[1..];
      RemoveIsFilter(t, names);
      var rest, after := ApplyRemove(t, names), ApplyRemove(active, names);
      forall x ensures Live(after, x) <==> Live(active, x) && x.name !in names {
        LivePrepend(y, t, x);
        LivePrepend(y, rest, x);
        assert active == [y] + t;
      }
      forall i | 0 <= i < |rest| ensures rest[i].name != y.name {
        assert Live(rest, rest[i]);
        assert Live(t, rest[i]);
      }
    }
  }

  lemma LivePrepend(y: Entry, t: seq<Entry>, x: Entry)
    ensures Live([y] + t, x) <==> Live(t, x) || x == y
  {
    if Live(t, x) {
      var i :| 0 <= i < |t| && t[i] == x;
      assert ([y] + t)[i + 1] == x;
    }
    assert ([y] + t)[0] == y;
  }

  // ---- One column's entries ----

  /** The entries of one target, in log order. */
  function EntriesOf(active: seq<Entry>, t: Target): seq<Entry> {
    if active == [] then []
    else if active[0].meta.target == t then [active[0]] + EntriesOf(active[1..], t)
    else EntriesOf(active[1..], t)
  }

  lemma AddFront(active: seq<Entry>, e: Entry)
    requires active != []
    ensures ApplyAdd(active, e) == if active[0].name == e.name then [e] + active[1..]
      else [active[0]] + ApplyAdd(active[1..], e)
  {
    var t := active[1..];
    assert active == [active[0]] + t;
    if active[0].name != e.name {
      var i := IndexOf(t, e.name);
      assert IndexOf(active, e.name) == i + 1;
    }
  }

  /** File names carry their target, so an addition touches one column only. */
  lemma {:induction false} AddTouchesOneColumn(active: seq<Entry>, e: Entry, t: Target)
    requires forall x :: x in active && x.name == e.name ==> x.meta.target == e.meta.target
    ensures EntriesOf(ApplyAdd(active, e), t) ==
      if e.meta.target == t then ApplyAdd(EntriesOf(active, t), e) else EntriesOf(active, t)
  {
    hide ApplyAdd;
    if active == [] {
      AddToNone(e);
      assert [e][1..] == [];
    } else {
      var x, rest := active[0], active[1..];
      assert x in active;
      AddFront(active, e);
      AddTouchesOneColumn(rest, e, t);
      if x.name == e.name {
        assert ([e] + rest)[1..] == rest;
      } else {
        assert ([x] + ApplyAdd(rest, e))[1..] == ApplyAdd(rest, e);
      }
      if x.meta.target == t {
        var own := EntriesOf(active, t);
        AddFront(own, e);
        assert own[1..] == EntriesOf(rest, t);
      } else if x.name == e.name {
        assert e.meta.target != t;
      }
    }
  }

  lemma AddToNone(e: Entry)
    ensures ApplyAdd([], e) == [e]
  {}

  /** A removal acts on each column by itself. */
  lemma {:induction false} RemoveActsPerColumn(active: seq<Entry>, names: seq<Name>, t: Target)
    ensures EntriesOf(ApplyRemove(active, names), t) == ApplyRemove(EntriesOf(active, t), names)
  {
    if active != [] {
      RemoveActsPerColumn(active[1..], names, t);
      var x, rest := active[0], ApplyRemove(active[1..], names);
      assert ([x] + rest)[1..] == rest;
      var own := EntriesOf(active[1..], t);
      assert ([x] + own)[1..] == own;
    }
  }
}
