/** The log records the daemon sends with a response: the bounded buffer of daemon/daemon.c they collect in, and
    their encoding, a level and a length before each message. Both ends run on one host, so the order of the bytes
    of an integer does not matter. */
module Logs {
  import opened Bytes

  const RECORD_SIZE := 8
  const LOG_BUFFER_SIZE := 4096

  /** A level is the 32 bits of an int32_t. */
  datatype Record = Record(level: int, message: seq<byte>)

  predicate Encodable(r: Record) {
    0 <= r.level <= UINT32_MAX && |r.message| <= LOG_BUFFER_SIZE
  }

  predicate AllEncodable(rs: seq<Record>) {
    forall i :: 0 <= i < |rs| ==> Encodable(rs[i])
  }

  function EncodeRecord(r: Record): (b: seq<byte>)
    requires Encodable(r)
    ensures |b| == RECORD_SIZE + |r.message|
  {
    U32(r.level) + U32(|r.message|) + r.message
  }

  function Encode(rs: seq<Record>): seq<byte>
    requires AllEncodable(rs)
  {
    if rs == [] then [] else EncodeRecord(rs[0]) + Encode(rs[1..])
  }

  /** What a run of bytes holds, if it is a run of records. */
  function Decode(b: seq<byte>): Option<seq<Record>> {
    if b == [] then Some([])
    else if |b| < RECORD_SIZE then None
    else
      var n := Get32(b, 4);
      if n > LOG_BUFFER_SIZE || n > |b| - RECORD_SIZE then None
      else
        match Decode(b[RECORD_SIZE + n..])
        case None => None
        case Some(rest) => Some([Record(Get32(b, 0), b[RECORD_SIZE..RECORD_SIZE + n])] + rest)
  }

  lemma RecordFields(r: Record, rest: seq<byte>)
    requires Encodable(r)
    ensures var b := EncodeRecord(r) + rest;
      Get32(b, 0) == r.level && Get32(b, 4) == |r.message|
      && b[RECORD_SIZE..RECORD_SIZE + |r.message|] == r.message && b[RECORD_SIZE + |r.message|..] == rest
  {
    var b := EncodeRecord(r) + rest;
    Get32Same(b, 0, U32(r.level), 0);
    Get32Same(b, 4, U32(|r.message|), 0);
  }

  /** Decoding undoes encoding. */
  lemma {:induction false} DecodeEncode(rs: seq<Record>)
    requires AllEncodable(rs)
    ensures Decode(Encode(rs)) == Some(rs)
  {
    if rs != [] {
      RecordFields(rs[0], Encode(rs[1..]));
      DecodeEncode(rs[1..]);
      assert [rs[0]] + rs[1..] == rs;
    }
  }

  lemma RecordSplit(b: seq<byte>, n: nat)
    requires RECORD_SIZE + n <= |b| && n == Get32(b, 4) && n <= LOG_BUFFER_SIZE
    ensures b == EncodeRecord(Record(Get32(b, 0), b[RECORD_SIZE..RECORD_SIZE + n])) + b[RECORD_SIZE + n..]
  {
    hide U32, Get32;
    Get32Bytes(b, 0);
    Get32Bytes(b, 4);
    assert b == b[0..4] + b[4..8] + b[RECORD_SIZE..RECORD_SIZE + n] + b[RECORD_SIZE + n..];
  }

  /** Only an encoding decodes. */
  lemma {:induction false} EncodeDecode(b: seq<byte>)
    requires Decode(b).Some?
    ensures AllEncodable(Decode(b).value) && Encode(Decode(b).value) == b
  {
    hide U32, Get32, EncodeRecord;
    if b != [] {
      var n := Get32(b, 4);
      EncodeDecode(b[RECORD_SIZE + n..]);
      assert Decode(b).value[1..] == Decode(b[RECORD_SIZE + n..]).value;
      RecordSplit(b, n);
    }
  }

  lemma {:induction false} EncodeAppend(rs: seq<Record>, r: Record)
    requires AllEncodable(rs) && Encodable(r)
    ensures AllEncodable(rs + [r]) && Encode(rs + [r]) == Encode(rs) + EncodeRecord(r)
  {
    hide EncodeRecord, U32;
    if rs == [] {
      assert [r][1..] == [];
    } else {
      assert (rs + [r])[1..] == rs[1..] + [r];
      EncodeAppend(rs[1..], r);
    }
  }

  /** What one log call does to the records: a full buffer is emptied first, and the message is cut to the room
      left; without room for a record and a byte it is dropped. */
  function Logged(rs: seq<Record>, level: int, message: seq<byte>): seq<Record>
    requires AllEncodable(rs)
  {
    var base := if |Encode(rs)| >= LOG_BUFFER_SIZE then [] else rs;
    var available := LOG_BUFFER_SIZE - |Encode(base)|;
    if available <= RECORD_SIZE then base
    else if |message| > available - RECORD_SIZE then base + [Record(level, message[..available - RECORD_SIZE])]
    else base + [Record(level, message)]
  }

  /** A client's log buffer: outgoing_string and outgoing_string_len. */
  class LogBuffer {
    const outgoing: array<byte>
    var used: nat
    ghost var records: seq<Record>

    ghost predicate Valid()
      reads this, outgoing
    {
      && outgoing.Length == LOG_BUFFER_SIZE && used <= LOG_BUFFER_SIZE
      && AllEncodable(records) && outgoing[..used] == Encode(records)
    }

    constructor ()
      ensures Valid() && records == [] && fresh(outgoing)
    {
      outgoing := new byte[LOG_BUFFER_SIZE];
      used, records := 0, [];
    }

    /** The start of a command clears what an earlier one logged. */
    method Clear()
      requires Valid()
      modifies this, outgoing
      ensures Valid() && records == []
    {
      outgoing[0] := 0;
      used, records := 0, [];
    }

    /** daemon_log_for_client. */
    method Log(level: int, message: seq<byte>)
      requires Valid() && 0 <= level <= UINT32_MAX
      modifies this, outgoing
      ensures Valid() && records == Logged(old(records), level, message)
      ensures var kept := if old(used) == LOG_BUFFER_SIZE then [] else old(records);
        var room := if old(used) == LOG_BUFFER_SIZE then LOG_BUFFER_SIZE else LOG_BUFFER_SIZE - old(used);
        if room <= RECORD_SIZE then records == kept && used == old(used)
        else
          && |records| == |kept| + 1 && records[..|kept|] == kept && records[|kept|].level == level
          && records[|kept|].message <= message
          && (records[|kept|].message == message || used == LOG_BUFFER_SIZE)
    {
      if used >= LOG_BUFFER_SIZE {
        used := 0;
        outgoing[0] := 0;
        records := [];
      }
      var available := LOG_BUFFER_SIZE - used;
      if available > RECORD_SIZE {
        var length := if |message| > available - RECORD_SIZE then available - RECORD_SIZE else |message|;
        var r := Record(level, message[..length]);
        Append(EncodeRecord(r));
        EncodeAppend(records, r);
        records := records + [r];
        assert |message| <= available - RECORD_SIZE ==> message[..length] == message;
      }
    }

    /** memcpy to the end of the buffer. */
    method Append(data: seq<byte>)
      requires outgoing.Length == LOG_BUFFER_SIZE && used + |data| <= LOG_BUFFER_SIZE
      modifies this`used, outgoing
      ensures used == old(used) + |data| && outgoing[..used] == old(outgoing[..used]) + data
    {
      forall i | 0 <= i < |data| {
        outgoing[used + i] := data[i];
      }
      used := used + |data|;
    }
  }

  // ----- every sequence of calls

  datatype LogCall = LogCall(level: int, message: seq<byte>)

  function LoggedAll(calls: seq<LogCall>): (rs: seq<Record>)
    requires forall i :: 0 <= i < |calls| ==> 0 <= calls[i].level <= UINT32_MAX
    ensures AllEncodable(rs)
  {
    if calls == [] then []
    else
      var last := calls[|calls| - 1];
      Logged(LoggedAll(calls[..|calls| - 1]), last.level, last.message)
  }

  /** After any calls the buffer holds whole records and nothing else, in no more than its 4096 bytes. */
  method LogRun(calls: seq<LogCall>) returns (buffer: LogBuffer)
    requires forall i :: 0 <= i < |calls| ==> 0 <= calls[i].level <= UINT32_MAX
    ensures buffer.Valid() && buffer.records == LoggedAll(calls)
    ensures Decode(buffer.outgoing[..buffer.used]) == Some(LoggedAll(calls))
  {
    buffer := new LogBuffer();
    for i := 0 to |calls|
      invariant buffer.Valid() && buffer.records == LoggedAll(calls[..i]) && fresh(buffer) && fresh(buffer.outgoing)
    {
      assert calls[..i + 1][..i] == calls[..i];
      buffer.Log(calls[i].level, calls[i].message);
    }
    assert calls[..|calls|] == calls;
    DecodeEncode(buffer.records);
  }

  function Size(calls: seq<LogCall>): nat {
    if calls == [] then 0 else Size(calls[..|calls| - 1]) + RECORD_SIZE + |calls[|calls| - 1].message|
  }

  function Records(calls: seq<LogCall>): seq<Record> {
    if calls == [] then []
    else Records(calls[..|calls| - 1]) + [Record(calls[|calls| - 1].level, calls[|calls| - 1].message)]
  }

  /** The calls fit the buffer. Its last bytes take no empty message. */
  predicate Fits(calls: seq<LogCall>) {
    Size(calls) <= LOG_BUFFER_SIZE && (Size(calls) == LOG_BUFFER_SIZE ==> calls[|calls| - 1].message != [])
  }

  /** Calls are all kept, whole and in order, exactly when they fit. */
  lemma {:induction false} NothingLost(calls: seq<LogCall>)
    requires forall i :: 0 <= i < |calls| ==> 0 <= calls[i].level <= UINT32_MAX
    ensures LoggedAll(calls) == Records(calls) <==> Fits(calls)
    ensures Fits(calls) ==> |Encode(LoggedAll(calls))| == Size(calls)
    ensures |LoggedAll(calls)| <= |Records(calls)| == |calls|
  {
    hide EncodeRecord, Encode;
    if calls == [] {
      EmptyCode();
    } else {
      var front, last := calls[..|calls| - 1], calls[|calls| - 1];
      NothingLost(front);
      var rs, all := LoggedAll(front), Logged(LoggedAll(front), last.level, last.message);
      EmptyCode();
      if |last.message| <= LOG_BUFFER_SIZE {
        EncodeAppend(rs, Record(last.level, last.message));
      }
      if |all| == |calls| {
        assert all[..|front|] == rs && Records(calls)[..|front|] == Records(front);
        assert all[|front|].message <= last.message;
      }
    }
  }

  /** A call after the buffer has filled starts it anew: of the calls before, not one record is left. */
  lemma {:induction false} FullForgets(calls: seq<LogCall>, more: seq<LogCall>)
    requires forall i :: 0 <= i < |calls| ==> 0 <= calls[i].level <= UINT32_MAX
    requires forall i :: 0 <= i < |more| ==> 0 <= more[i].level <= UINT32_MAX
    requires |Encode(LoggedAll(calls))| >= LOG_BUFFER_SIZE && more != []
    ensures LoggedAll(calls + more) == LoggedAll(more)
  {
    hide EncodeRecord, Encode;
    var front := more[..|more| - 1];
    assert (calls + more)[..|calls + more| - 1] == calls + front;
    if front == [] {
      EmptyCode();
      assert calls + front == calls;
    } else {
      FullForgets(calls, front);
    }
  }

  lemma EmptyCode()
    ensures Encode([]) == []
  {
  }
}
