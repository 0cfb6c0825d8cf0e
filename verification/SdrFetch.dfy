/** The SDR repository walk of IpmbSDRDevice in src/ipmb/IpmbSDRSensor.cpp: records are fetched
    chunk by chunk with Get SDR (section 33.12 of the IPMI v2.0 specification). */
module SdrFetch {
  type byte = n: nat | n < 256

  const PER_COUNT_BYTE := 16
  const DATA_LENGTH_BYTE := 6
  const SDR_SENSOR_DATA_SIZE := 18

  /** One Get SDR request: record id, 8-bit offset and the number of bytes to read. */
  datatype Request = Request(idLsb: byte, idMsb: byte, offset: byte, count: byte)

  /** A request is outstanding, the walk is over, or a response was rejected and nothing follows. */
  datatype Phase = Awaiting | Finished | Dropped

  datatype Walk = Walk(
    sdrData: seq<byte>, validRecordCount: nat, iCnt: nat, nextIdLsb: byte, nextIdMsb: byte,
    requests: seq<Request>, records: seq<seq<byte>>, phase: Phase)

  // ----- Specification; the counters wrap like the uint8_t and uint16_t they are -----

  function Ask(w: Walk): Walk {
    w.(requests := w.requests + [Asked(w)], phase := Awaiting)
  }

  function Asked(w: Walk): Request {
    Request(w.nextIdLsb, w.nextIdMsb, PER_COUNT_BYTE * w.iCnt % 256, PER_COUNT_BYTE)
  }

  function DataLength(data: seq<byte>): byte
    requires |data| > DATA_LENGTH_BYTE
  {
    (data[DATA_LENGTH_BYTE] + DATA_LENGTH_BYTE + 1) % 256
  }

  function Handle(w: Walk, data: seq<byte>, recordCount: nat): Walk
    requires |data| >= SDR_SENSOR_DATA_SIZE
  {
    var all := w.sdrData + data;
    if |all| < DataLength(all) then
      Ask(w.(sdrData := all, iCnt := (w.iCnt + 1) % 256))
    else
      var done := w.(sdrData := [], iCnt := 0, records := w.records + [all]);
      if w.validRecordCount == recordCount then done.(nextIdLsb := 0, nextIdMsb := 0, phase := Finished)
      else Ask(done.(nextIdLsb := all[0], nextIdMsb := all[1], validRecordCount := (w.validRecordCount + 1) % 0x1_0000))
  }

  /** The response to the outstanding request; `ok` is false for a bus error or a bad status. */
  function Respond(w: Walk, ok: bool, data: seq<byte>, recordCount: nat): Walk {
    if w.phase != Awaiting then w
    else if !ok || |data| < SDR_SENSOR_DATA_SIZE then w.(phase := Dropped)
    else Handle(w, data, recordCount)
  }

  const START := Ask(Walk([], 1, 0, 0, 0, [], [], Finished))

  // ----- The source's own form -----

  class IpmbSDRDevice {
    var sdrData: seq<byte>
    var validRecordCount: nat
    var iCnt: nat
    var nextRecordIDLSB: byte
    var nextRecordIDMSB: byte
    var requests: seq<Request>
    var records: seq<seq<byte>>
    var phase: Phase

    ghost function State(): Walk reads this {
      Walk(sdrData, validRecordCount, iCnt, nextRecordIDLSB, nextRecordIDMSB, requests, records, phase)
    }

    /** A device whose repository is being read for the first time. */
    constructor ()
      ensures State() == START
    {
      sdrData, validRecordCount, iCnt, nextRecordIDLSB, nextRecordIDMSB := [], 1, 0, 0, 0;
      requests, records, phase := [], [], Finished;
      new;
      GetSDRSensorData();
    }

    method GetSDRSensorData()
      modifies this`requests, this`phase
      ensures State() == Ask(old(State()))
    {
      var loopCount := PER_COUNT_BYTE * iCnt % 256;
      requests := requests + [Request(nextRecordIDLSB, nextRecordIDMSB, loopCount, PER_COUNT_BYTE)];
      phase := Awaiting;
    }

    method OnSDRResponse(ok: bool, data: seq<byte>, recordCount: nat)
      requires phase == Awaiting
      modifies this
      ensures State() == Respond(old(State()), ok, data, recordCount)
    {
      if !ok || |data| < SDR_SENSOR_DATA_SIZE {
        phase := Dropped;
        return;
      }
      HandleSDRData(data, recordCount);
    }

    method HandleSDRData(data: seq<byte>, recordCount: nat)
      requires |data| >= SDR_SENSOR_DATA_SIZE
      modifies this
      ensures State() == Handle(old(State()), data, recordCount)
    {
      sdrData := sdrData + data;
      var dataLength := (sdrData[DATA_LENGTH_BYTE] + DATA_LENGTH_BYTE + 1) % 256;
      if |sdrData| < dataLength {
        iCnt := (iCnt + 1) % 256;
        GetSDRSensorData();
      } else {
        records := records + [sdrData];
        iCnt := 0;
        nextRecordIDLSB := sdrData[0];
        nextRecordIDMSB := sdrData[1];
        sdrData := [];
        if validRecordCount == recordCount {
          nextRecordIDLSB := 0;
          nextRecordIDMSB := 0;
          phase := Finished;
          return;
        }
        validRecordCount := (validRecordCount + 1) % 0x1_0000;
        GetSDRSensorData();
      }
    }
  }

  // ----- Whole runs -----

  datatype Response = Response(ok: bool, data: seq<byte>)

  function Run(recordCount: nat, rs: seq<Response>): Walk {
    if rs == [] then START
    else Respond(Run(recordCount, rs[..|rs| - 1]), rs[|rs| - 1].ok, rs[|rs| - 1].data, recordCount)
  }

  predicate AllAccepted(rs: seq<Response>) {
    forall r :: r in rs ==> r.ok && |r.data| >= SDR_SENSOR_DATA_SIZE
  }

  /** How many records the walk completes: a record count of 0 is only met after the 16-bit
      counter has wrapped. */
  function Expected(recordCount: nat): nat {
    if recordCount == 0 then 0x1_0000 else recordCount
  }

  /** The ids of the requests that start a record. */
  function Starts(requests: seq<Request>): seq<(byte, byte)> {
    if requests == [] then []
    else
      var last := requests[|requests| - 1];
      Starts(requests[..|requests| - 1]) + if last.offset == 0 then [(last.idLsb, last.idMsb)] else []
  }

  function NextIds(records: seq<seq<byte>>): seq<(byte, byte)>
    requires forall r :: r in records ==> |r| >= 2
  {
    seq(|records|, i requires 0 <= i < |records| => (records[i][0], records[i][1]))
  }

  /** `next` goes on 16 bytes after `r`, or starts a record. */
  predicate Continues(r: Request, next: Request) {
    next.offset == 0 || next == r.(offset := (r.offset + 16) % 256)
  }

  /** Each request continues the one before it or starts a record. */
  predicate Consecutive(requests: seq<Request>) {
    && requests != [] && requests[0].offset == 0
    && forall i, j :: 0 <= i < |requests| && 0 <= j < |requests| && j == i + 1 ==> Continues(requests[i], requests[j])
  }

  predicate RecordsOk(records: seq<seq<byte>>) {
    forall r :: r in records ==> |r| >= SDR_SENSOR_DATA_SIZE && |r| >= DataLength(r)
  }

  /** In the middle of a walk: the chunk index counts the chunks of the record, each brought at
      least 18 bytes and the length still wants more, so the index stays below 15. */
  predicate CountersOk(w: Walk, recordCount: nat) {
    && RecordsOk(w.records)
    && (w.phase == Awaiting ==>
          && |w.records| < Expected(recordCount)
          && w.validRecordCount == (|w.records| + 1) % 0x1_0000
          && SDR_SENSOR_DATA_SIZE * w.iCnt <= |w.sdrData|
          && (w.iCnt > 0 ==> |w.sdrData| < DataLength(w.sdrData))
          && (w.iCnt == 0 ==> w.sdrData == []))
    && (w.phase == Finished ==> |w.records| == Expected(recordCount))
  }

  /** The request log: the outstanding request is the last one, and each record was asked for
      under the id that the record before it announced. */
  predicate LogOk(w: Walk)
    requires RecordsOk(w.records)
  {
    && Consecutive(w.requests)
    && (w.phase == Awaiting ==>
          && w.requests[|w.requests| - 1] == Asked(w)
          && Starts(w.requests) == [(0, 0)] + NextIds(w.records))
    && (w.phase == Finished ==>
          w.records != [] && Starts(w.requests) == [(0, 0)] + NextIds(w.records[..|w.records| - 1]))
  }

  predicate WalkOk(w: Walk, recordCount: nat) {
    CountersOk(w, recordCount) && LogOk(w)
  }

  lemma ChunkIndexBound(w: Walk, recordCount: nat)
    requires CountersOk(w, recordCount) && w.phase == Awaiting
    ensures w.iCnt <= 14 && PER_COUNT_BYTE * w.iCnt <= 224
  {
  }

  lemma StartsAppend(requests: seq<Request>, r: Request)
    ensures Starts(requests + [r]) == Starts(requests) + if r.offset == 0 then [(r.idLsb, r.idMsb)] else []
  {
    assert (requests + [r])[..|requests|] == requests;
  }

  lemma ConsecutiveAppend(requests: seq<Request>, r: Request)
    requires Consecutive(requests) && Continues(requests[|requests| - 1], r)
    ensures Consecutive(requests + [r])
  {
  }

  lemma NextIdsAppend(records: seq<seq<byte>>, r: seq<byte>)
    requires RecordsOk(records + [r])
    ensures RecordsOk(records)
    ensures NextIds(records + [r]) == NextIds(records) + [(r[0], r[1])]
  {
    assert r in records + [r] && forall q :: q in records ==> q in records + [r];
  }

  lemma ChunkKeepsCounters(w: Walk, data: seq<byte>, recordCount: nat)
    requires CountersOk(w, recordCount) && w.phase == Awaiting
    requires |data| >= SDR_SENSOR_DATA_SIZE && |w.sdrData + data| < DataLength(w.sdrData + data)
    ensures CountersOk(Handle(w, data, recordCount), recordCount)
  {
    ChunkIndexBound(w, recordCount);
    var w' := Handle(w, data, recordCount);
    assert w'.iCnt == w.iCnt + 1 && w'.sdrData == w.sdrData + data;
  }

  lemma RecordKeepsCounters(w: Walk, data: seq<byte>, recordCount: nat)
    requires CountersOk(w, recordCount) && w.phase == Awaiting && recordCount < 0x1_0000
    requires |data| >= SDR_SENSOR_DATA_SIZE && |w.sdrData + data| >= DataLength(w.sdrData + data)
    ensures CountersOk(Handle(w, data, recordCount), recordCount)
  {
    var w' := Handle(w, data, recordCount);
    assert w'.records == w.records + [w.sdrData + data] && w'.sdrData == [] && w'.iCnt == 0;
  }

  lemma HandleKeepsCounters(w: Walk, data: seq<byte>, recordCount: nat)
    requires CountersOk(w, recordCount) && w.phase == Awaiting && recordCount < 0x1_0000
    requires |data| >= SDR_SENSOR_DATA_SIZE
    ensures CountersOk(Handle(w, data, recordCount), recordCount)
  {
    if |w.sdrData + data| < DataLength(w.sdrData + data) {
      ChunkKeepsCounters(w, data, recordCount);
    } else {
      RecordKeepsCounters(w, data, recordCount);
    }
  }

  /** One more request for the same record. */
  lemma AskOn(requests: seq<Request>, next: Request)
    requires Consecutive(requests) && next.offset != 0 && Continues(requests[|requests| - 1], next)
    ensures Consecutive(requests + [next]) && Starts(requests + [next]) == Starts(requests)
  {
    StartsAppend(requests, next);
    ConsecutiveAppend(requests, next);
  }

  /** `v` is the walk with its chunk index already moved on. */
  lemma AskOnKeepsLog(v: Walk)
    requires RecordsOk(v.records) && v.phase == Awaiting && 0 < v.iCnt < 16
    requires LogOk(v.(iCnt := v.iCnt - 1))
    ensures LogOk(Ask(v))
  {
    assert PER_COUNT_BYTE * (v.iCnt - 1) % 256 == PER_COUNT_BYTE * v.iCnt - PER_COUNT_BYTE;
    AskOn(v.requests, Asked(v));
  }

  lemma ChunkKeepsLog(w: Walk, data: seq<byte>, recordCount: nat)
    requires RecordsOk(w.records) && LogOk(w) && w.phase == Awaiting && w.iCnt < 15
    requires |data| >= SDR_SENSOR_DATA_SIZE && |w.sdrData + data| < DataLength(w.sdrData + data)
    ensures LogOk(Handle(w, data, recordCount))
  {
    var v := w.(sdrData := w.sdrData + data, iCnt := w.iCnt + 1);
    assert Handle(w, data, recordCount) == Ask(v);
    AskOnKeepsLog(v);
  }

  lemma RecordKeepsLog(w: Walk, data: seq<byte>, recordCount: nat)
    requires RecordsOk(w.records) && LogOk(w) && w.phase == Awaiting
    requires |data| >= SDR_SENSOR_DATA_SIZE && |w.sdrData + data| >= DataLength(w.sdrData + data)
    requires RecordsOk(Handle(w, data, recordCount).records)
    ensures LogOk(Handle(w, data, recordCount))
  {
    var all := w.sdrData + data;
    var w' := Handle(w, data, recordCount);
    NextIdsAppend(w.records, all);
    if w.validRecordCount == recordCount {
      assert w'.records[..|w.records|] == w.records;
    } else {
      var r := Request(all[0], all[1], 0, PER_COUNT_BYTE);
      assert w'.requests == w.requests + [r];
      StartsAppend(w.requests, r);
      ConsecutiveAppend(w.requests, r);
      assert [(0, 0)] + (NextIds(w.records) + [(all[0], all[1])]) ==
        ([(0, 0)] + NextIds(w.records)) + [(all[0], all[1])];
    }
  }

  lemma HandleKeepsOk(w: Walk, data: seq<byte>, recordCount: nat)
    requires WalkOk(w, recordCount) && w.phase == Awaiting && recordCount < 0x1_0000
    requires |data| >= SDR_SENSOR_DATA_SIZE
    ensures WalkOk(Handle(w, data, recordCount), recordCount)
  {
    HandleKeepsCounters(w, data, recordCount);
    ChunkIndexBound(w, recordCount);
    if |w.sdrData + data| < DataLength(w.sdrData + data) {
      ChunkKeepsLog(w, data, recordCount);
    } else {
      RecordKeepsLog(w, data, recordCount);
    }
  }

  lemma RespondKeepsOk(w: Walk, r: Response, recordCount: nat)
    requires WalkOk(w, recordCount) && recordCount < 0x1_0000
    ensures var w' := Respond(w, r.ok, r.data, recordCount);
      && WalkOk(w', recordCount)
      && (w'.phase == Dropped ==> w.phase == Dropped || !r.ok || |r.data| < SDR_SENSOR_DATA_SIZE)
  {
    if w.phase == Awaiting && r.ok && |r.data| >= SDR_SENSOR_DATA_SIZE {
      HandleKeepsOk(w, r.data, recordCount);
    }
  }

  lemma StartIsOk(recordCount: nat)
    ensures WalkOk(START, recordCount)
  {
    assert START.requests == [Request(0, 0, 0, 16)];
    assert Starts([]) == [];
    StartsAppend([], Request(0, 0, 0, 16));
  }

  lemma {:induction false} AlwaysOk(recordCount: nat, rs: seq<Response>)
    requires recordCount < 0x1_0000
    ensures WalkOk(Run(recordCount, rs), recordCount)
    ensures Run(recordCount, rs).phase == Dropped ==> !AllAccepted(rs)
  {
    if rs == [] {
      StartIsOk(recordCount);
    } else {
      var init := rs[..|rs| - 1];
      AlwaysOk(recordCount, init);
      assert rs[|rs| - 1] in rs && forall r :: r in init ==> r in rs;
      RespondKeepsOk(Run(recordCount, init), rs[|rs| - 1], recordCount);
    }
  }

  lemma OkRequests(w: Walk, recordCount: nat)
    requires WalkOk(w, recordCount)
    ensures Consecutive(w.requests)
    ensures w.phase == Awaiting ==>
      && w.iCnt <= 14
      && w.requests[|w.requests| - 1].offset == 16 * w.iCnt
      && w.requests[|w.requests| - 1].count == 16
      && (forall r :: r in w.records ==> |r| >= 2)
      && Starts(w.requests) == [(0, 0)] + NextIds(w.records)
  {
    if w.phase == Awaiting { ChunkIndexBound(w, recordCount); }
  }

  /** Over every response stream: the chunk index never exceeds 14, so the 8-bit offset of the
      outstanding request is 16 times the index without wrapping; every request starts a record
      or goes on 16 bytes further; and each record is asked for under the id that the record before
      it announced. */
  lemma RequestsAreConsecutive(recordCount: nat, rs: seq<Response>)
    requires recordCount < 0x1_0000
    ensures var w := Run(recordCount, rs);
      && Consecutive(w.requests)
      && (w.phase == Awaiting ==>
            && w.iCnt <= 14
            && w.requests[|w.requests| - 1].offset == 16 * w.iCnt
            && w.requests[|w.requests| - 1].count == 16
            && (forall r :: r in w.records ==> |r| >= 2)
            && Starts(w.requests) == [(0, 0)] + NextIds(w.records))
  {
    AlwaysOk(recordCount, rs);
    OkRequests(Run(recordCount, rs), recordCount);
  }

  lemma ResponseAdvances(w: Walk, r: Response, recordCount: nat)
    requires w.iCnt <= 14 && Respond(w, r.ok, r.data, recordCount).phase == Awaiting
    ensures var w' := Respond(w, r.ok, r.data, recordCount);
      w.phase == Awaiting && 15 * |w'.records| + w'.iCnt >= 15 * |w.records| + w.iCnt + 1
  {
  }

  /** While the walk goes on, every record has taken at most 15 responses. */
  lemma {:induction false} ResponsesPerRecord(recordCount: nat, rs: seq<Response>)
    requires recordCount < 0x1_0000 && Run(recordCount, rs).phase == Awaiting
    ensures |rs| <= 15 * |Run(recordCount, rs).records| + Run(recordCount, rs).iCnt
  {
    if rs != [] {
      var init := rs[..|rs| - 1];
      var w := Run(recordCount, init);
      AlwaysOk(recordCount, init);
      assert w.phase == Awaiting;
      ChunkIndexBound(w, recordCount);
      ResponsesPerRecord(recordCount, init);
      ResponseAdvances(w, rs[|rs| - 1], recordCount);
    }
  }

  /** A stream of accepted responses brings the walk to its end after at most 15 per record, with
      exactly the expected number of records, each closed by the loop's length test. */
  lemma WalkFinishes(recordCount: nat, rs: seq<Response>)
    requires recordCount < 0x1_0000 && AllAccepted(rs) && |rs| >= 15 * Expected(recordCount)
    ensures Run(recordCount, rs).phase == Finished
    ensures |Run(recordCount, rs).records| == Expected(recordCount) && RecordsOk(Run(recordCount, rs).records)
  {
    AlwaysOk(recordCount, rs);
    if Run(recordCount, rs).phase == Awaiting {
      ResponsesPerRecord(recordCount, rs);
      ChunkIndexBound(Run(recordCount, rs), recordCount);
    }
  }

  // ----- What a closed record holds -----

  /** The record bytes of 18-byte responses: each repeats the two bytes of the next record's id
      in front of its 16 bytes of the record. */
  function Payload(raw: seq<byte>): seq<byte> {
    if |raw| < SDR_SENSOR_DATA_SIZE then [] else raw[2..SDR_SENSOR_DATA_SIZE] + Payload(raw[SDR_SENSOR_DATA_SIZE..])
  }

  /** A record as section 43 of the IPMI v2.0 specification lays it out: five bytes
      of header, the last of which is the number of bytes that follow. */
  predicate IsRecord(r: seq<byte>) {
    |r| >= 5 && |r| == 5 + LengthByte(r)
  }

  function LengthByte(r: seq<byte>): nat
    requires |r| >= 5
  {
    r[4]
  }

  /** The device's answer to the request for 16 bytes at chunk `k`: the next record's id and the
      bytes, with zeros behind the end of the record. */
  function Chunk(r: seq<byte>, next: (byte, byte), k: nat): (c: seq<byte>)
    ensures |c| == SDR_SENSOR_DATA_SIZE
  {
    [next.0, next.1] + seq(16, i requires 0 <= i < 16 => if 16 * k + i < |r| then r[16 * k + i] else 0)
  }

  function Chunks(r: seq<byte>, next: (byte, byte), n: nat): (rs: seq<Response>)
    ensures |rs| == n
  {
    if n == 0 then [] else Chunks(r, next, n - 1) + [Response(true, Chunk(r, next, n - 1))]
  }

  function Raw(r: seq<byte>, next: (byte, byte), n: nat): (raw: seq<byte>)
    ensures |raw| == SDR_SENSOR_DATA_SIZE * n
  {
    if n == 0 then [] else Raw(r, next, n - 1) + Chunk(r, next, n - 1)
  }

  /** The first `m` bytes of the record, with zeros behind its end. */
  function Extended(r: seq<byte>, m: nat): seq<byte> {
    seq(m, i requires 0 <= i < m => if i < |r| then r[i] else 0)
  }

  /** `n` is the least number of 18-byte responses that satisfies the loop's length test. */
  predicate Closes(n: nat, length: nat) {
    n >= 1 && SDR_SENSOR_DATA_SIZE * n >= length && (n == 1 || SDR_SENSOR_DATA_SIZE * (n - 1) < length)
  }

  lemma {:induction false} PayloadAppend(raw: seq<byte>, chunk: seq<byte>, n: nat)
    requires |raw| == SDR_SENSOR_DATA_SIZE * n && |chunk| == SDR_SENSOR_DATA_SIZE
    ensures Payload(raw + chunk) == Payload(raw) + chunk[2..]
  {
    if n == 0 {
      assert raw + chunk == chunk && chunk[SDR_SENSOR_DATA_SIZE..] == [];
    } else {
      var head, rest := raw[..SDR_SENSOR_DATA_SIZE], raw[SDR_SENSOR_DATA_SIZE..];
      assert raw == head + rest && raw + chunk == head + (rest + chunk);
      PayloadAppend(rest, chunk, n - 1);
      PayloadHead(head, rest);
      PayloadHead(head, rest + chunk);
    }
  }

  lemma PayloadHead(head: seq<byte>, rest: seq<byte>)
    requires |head| == SDR_SENSOR_DATA_SIZE
    ensures Payload(head + rest) == head[2..] + Payload(rest)
  {
    var all := head + rest;
    assert all[SDR_SENSOR_DATA_SIZE..] == rest && all[2..SDR_SENSOR_DATA_SIZE] == head[2..];
  }

  lemma {:induction false} PayloadOfRaw(r: seq<byte>, next: (byte, byte), n: nat)
    ensures Payload(Raw(r, next, n)) == Extended(r, 16 * n)
  {
    if n > 0 {
      PayloadOfRaw(r, next, n - 1);
      PayloadAppend(Raw(r, next, n - 1), Chunk(r, next, n - 1), n - 1);
      assert Extended(r, 16 * n) == Extended(r, 16 * (n - 1)) + Chunk(r, next, n - 1)[2..];
    }
  }

  lemma {:induction false} RawStart(r: seq<byte>, next: (byte, byte), n: nat)
    requires IsRecord(r) && n >= 1
    ensures DataLength(Raw(r, next, n)) == (LengthByte(r) + 7) % 256
    ensures Raw(r, next, n)[DATA_LENGTH_BYTE] == LengthByte(r)
    ensures Raw(r, next, n)[0] == next.0 && Raw(r, next, n)[1] == next.1
  {
    if n == 1 {
      assert Raw(r, next, 0) == [] && Raw(r, next, 1) == Chunk(r, next, 0);
    } else {
      RawStart(r, next, n - 1);
    }
  }

  lemma RunOneMore(recordCount: nat, rs: seq<Response>, r: Response)
    ensures Run(recordCount, rs + [r]) == Respond(Run(recordCount, rs), r.ok, r.data, recordCount)
  {
    assert (rs + [r])[..|rs|] == rs;
  }

  lemma AcceptChunk(w: Walk, chunk: seq<byte>, recordCount: nat, raw: seq<byte>)
    requires w.phase == Awaiting && w.iCnt < 255 && |chunk| == SDR_SENSOR_DATA_SIZE && raw == w.sdrData + chunk
    ensures var w' := Respond(w, true, chunk, recordCount);
      if |raw| < DataLength(raw) then
        w'.phase == Awaiting && w'.sdrData == raw && w'.records == w.records && w'.iCnt == w.iCnt + 1
      else w'.records == w.records + [raw] && w'.iCnt == 0
  {
  }

  /** Before the length test is satisfied, the walk holds the raw chunks. */
  lemma {:induction false} InsideRecord(
    recordCount: nat, rs: seq<Response>, r: seq<byte>, next: (byte, byte), n: nat, k: nat)
    requires recordCount < 0x1_0000 && Run(recordCount, rs).phase == Awaiting && Run(recordCount, rs).iCnt == 0
    requires IsRecord(r) && Closes(n, (LengthByte(r) + 7) % 256) && k < n
    ensures var w := Run(recordCount, rs + Chunks(r, next, k));
      && w.phase == Awaiting && w.sdrData == Raw(r, next, k) && w.iCnt == k
      && w.records == Run(recordCount, rs).records
  {
    if k == 0 {
      AlwaysOk(recordCount, rs);
      assert rs + [] == rs;
    } else {
      InsideRecord(recordCount, rs, r, next, n, k - 1);
      OneChunkMore(recordCount, rs, r, next, k);
      RawStart(r, next, k);
    }
  }

  lemma IndexStaysSmall(recordCount: nat, rs: seq<Response>)
    requires recordCount < 0x1_0000
    ensures Run(recordCount, rs).phase == Awaiting ==> Run(recordCount, rs).iCnt <= 14
  {
    AlwaysOk(recordCount, rs);
    if Run(recordCount, rs).phase == Awaiting { ChunkIndexBound(Run(recordCount, rs), recordCount); }
  }

  lemma OneChunkMore(recordCount: nat, rs: seq<Response>, r: seq<byte>, next: (byte, byte), k: nat)
    requires k >= 1 && recordCount < 0x1_0000
    requires var w := Run(recordCount, rs + Chunks(r, next, k - 1));
      w.phase == Awaiting && w.sdrData == Raw(r, next, k - 1) && w.iCnt == k - 1
    ensures var w, w' := Run(recordCount, rs + Chunks(r, next, k - 1)), Run(recordCount, rs + Chunks(r, next, k));
      var raw := Raw(r, next, k);
      if |raw| < DataLength(raw) then
        w'.phase == Awaiting && w'.sdrData == raw && w'.records == w.records && w'.iCnt == k
      else w'.records == w.records + [raw] && w'.iCnt == 0
  {
    IndexStaysSmall(recordCount, rs + Chunks(r, next, k - 1));
    ChunkStep(recordCount, rs, r, next, k);
    var w := Run(recordCount, rs + Chunks(r, next, k - 1));
    AcceptChunk(w, Chunk(r, next, k - 1), recordCount, Raw(r, next, k));
  }

  lemma ChunkStep(recordCount: nat, rs: seq<Response>, r: seq<byte>, next: (byte, byte), k: nat)
    requires k >= 1
    ensures Run(recordCount, rs + Chunks(r, next, k)) ==
      Respond(Run(recordCount, rs + Chunks(r, next, k - 1)), true, Chunk(r, next, k - 1), recordCount)
  {
    var before, last := rs + Chunks(r, next, k - 1), Response(true, Chunk(r, next, k - 1));
    assert rs + Chunks(r, next, k) == before + [last];
    RunOneMore(recordCount, before, last);
  }

  lemma RecordFromChunks(recordCount: nat, rs: seq<Response>, r: seq<byte>, next: (byte, byte), n: nat)
    requires recordCount < 0x1_0000 && Run(recordCount, rs).phase == Awaiting && Run(recordCount, rs).iCnt == 0
    requires IsRecord(r) && Closes(n, (LengthByte(r) + 7) % 256)
    ensures var w, w' := Run(recordCount, rs), Run(recordCount, rs + Chunks(r, next, n));
      && w'.records == w.records + [Raw(r, next, n)]
      && Payload(Raw(r, next, n)) == Extended(r, 16 * n)
      && (r <= Payload(Raw(r, next, n)) <==> 16 * n >= LengthByte(r) + 5)
  {
    InsideRecord(recordCount, rs, r, next, n, n - 1);
    OneChunkMore(recordCount, rs, r, next, n);
    RawStart(r, next, n);
    PayloadOfRaw(r, next, n);
    PrefixOfExtended(r, 16 * n);
  }

  /** The device's answer to the outstanding request: the next record's id and the bytes asked for,
      with zeros behind the end of the record. */
  function Reply(w: Walk, r: seq<byte>, next: (byte, byte)): Response
    requires w.requests != []
  {
    var ask := w.requests[|w.requests| - 1];
    Response(true, [next.0, next.1] +
      seq(ask.count, i requires 0 <= i < ask.count => if ask.offset + i < |r| then r[ask.offset + i] else 0))
  }

  /** The answers to `n` requests in a row. */
  function Served(recordCount: nat, rs: seq<Response>, r: seq<byte>, next: (byte, byte), n: nat): seq<Response> {
    if n == 0 then []
    else
      var before := Served(recordCount, rs, r, next, n - 1);
      var w := Run(recordCount, rs + before);
      before + if w.requests == [] then [] else [Reply(w, r, next)]
  }

  lemma ReplyIsChunk(w: Walk, r: seq<byte>, next: (byte, byte), k: nat)
    requires w.requests != [] && w.requests[|w.requests| - 1].offset == 16 * k
    requires w.requests[|w.requests| - 1].count == 16
    ensures Reply(w, r, next) == Response(true, Chunk(r, next, k))
  {
    assert Reply(w, r, next).data == Chunk(r, next, k);
  }

  lemma {:induction false} ServedIsChunks(
    recordCount: nat, rs: seq<Response>, r: seq<byte>, next: (byte, byte), n: nat, k: nat)
    requires recordCount < 0x1_0000 && Run(recordCount, rs).phase == Awaiting && Run(recordCount, rs).iCnt == 0
    requires IsRecord(r) && Closes(n, (LengthByte(r) + 7) % 256) && k <= n
    ensures Served(recordCount, rs, r, next, k) == Chunks(r, next, k)
  {
    if k > 0 {
      ServedIsChunks(recordCount, rs, r, next, n, k - 1);
      InsideRecord(recordCount, rs, r, next, n, k - 1);
      AlwaysOk(recordCount, rs + Chunks(r, next, k - 1));
      var w := Run(recordCount, rs + Chunks(r, next, k - 1));
      OkRequests(w, recordCount);
      ReplyIsChunk(w, r, next, k - 1);
    }
  }

  /** The walk is over after the last record; before that the record `next` is asked for. */
  predicate Proceeds(w: Walk, next: (byte, byte), recordCount: nat) {
    if |w.records| == Expected(recordCount) then w.phase == Finished
    else w.phase == Awaiting && w.requests != [] && w.requests[|w.requests| - 1] == Request(next.0, next.1, 0, 16)
  }

  /** Reading one record from a device that answers what it is asked, whatever came before: the
      walk closes it after the `n` responses its length test asks for, with the record's first 16 * n
      bytes, and goes on with the record the device announced, unless this was the last. All of the
      record is there exactly when 16 * n reaches its length: the two repeated id bytes of every
      response count towards the length test. */
  lemma RecordFromDevice(recordCount: nat, rs: seq<Response>, r: seq<byte>, next: (byte, byte), n: nat)
    requires recordCount < 0x1_0000 && Run(recordCount, rs).phase == Awaiting && Run(recordCount, rs).iCnt == 0
    requires IsRecord(r) && Closes(n, (LengthByte(r) + 7) % 256)
    ensures var w, w' := Run(recordCount, rs), Run(recordCount, rs + Served(recordCount, rs, r, next, n));
      && |w'.records| == |w.records| + 1 && w'.records[..|w.records|] == w.records
      && Payload(w'.records[|w.records|]) == Extended(r, 16 * n)
      && (r <= Payload(w'.records[|w.records|]) <==> 16 * n >= LengthByte(r) + 5)
      && Proceeds(w', next, recordCount)
  {
    ServedIsChunks(recordCount, rs, r, next, n, n);
    RecordFromChunks(recordCount, rs, r, next, n);
    LastChunk(recordCount, rs, r, next, n);
  }

  lemma CountersAlwaysOk(recordCount: nat, rs: seq<Response>)
    requires recordCount < 0x1_0000
    ensures CountersOk(Run(recordCount, rs), recordCount)
  {
    AlwaysOk(recordCount, rs);
  }

  lemma LastChunk(recordCount: nat, rs: seq<Response>, r: seq<byte>, next: (byte, byte), n: nat)
    requires recordCount < 0x1_0000 && Run(recordCount, rs).phase == Awaiting && Run(recordCount, rs).iCnt == 0
    requires IsRecord(r) && Closes(n, (LengthByte(r) + 7) % 256)
    ensures Proceeds(Run(recordCount, rs + Chunks(r, next, n)), next, recordCount)
  {
    InsideRecord(recordCount, rs, r, next, n, n - 1);
    ChunkStep(recordCount, rs, r, next, n);
    CountersAlwaysOk(recordCount, rs + Chunks(r, next, n - 1));
    FinalChunk(Run(recordCount, rs + Chunks(r, next, n - 1)), r, next, n, recordCount);
  }

  lemma FinalChunk(w: Walk, r: seq<byte>, next: (byte, byte), n: nat, recordCount: nat)
    requires CountersOk(w, recordCount) && w.phase == Awaiting && recordCount < 0x1_0000
    requires IsRecord(r) && Closes(n, (LengthByte(r) + 7) % 256) && w.sdrData == Raw(r, next, n - 1)
    ensures Proceeds(Respond(w, true, Chunk(r, next, n - 1), recordCount), next, recordCount)
  {
    RawCloses(r, next, n);
    RecordClosed(w, Chunk(r, next, n - 1), recordCount, Raw(r, next, n));
  }

  lemma RawCloses(r: seq<byte>, next: (byte, byte), n: nat)
    requires IsRecord(r) && Closes(n, (LengthByte(r) + 7) % 256)
    ensures var raw := Raw(r, next, n);
      && raw == Raw(r, next, n - 1) + Chunk(r, next, n - 1)
      && |raw| >= DataLength(raw) && raw[0] == next.0 && raw[1] == next.1
  {
    RawStart(r, next, n);
  }

  /** The step that closes a record finishes the walk or asks for the announced record. */
  lemma RecordClosed(w: Walk, data: seq<byte>, recordCount: nat, all: seq<byte>)
    requires CountersOk(w, recordCount) && w.phase == Awaiting && recordCount < 0x1_0000
    requires |data| >= SDR_SENSOR_DATA_SIZE && all == w.sdrData + data && |all| >= DataLength(all)
    ensures Proceeds(Respond(w, true, data, recordCount), (all[0], all[1]), recordCount)
  {
  }

  /** A failed or short response ends the walk: nothing is asked for and nothing is stored. */
  lemma BadResponseStops(w: Walk, r: Response, recordCount: nat)
    requires w.phase == Awaiting && (!r.ok || |r.data| < 18)
    ensures var w' := Respond(w, r.ok, r.data, recordCount);
      && w'.requests == w.requests && w'.records == w.records && w'.phase == Dropped
      && forall q: Response :: Respond(w', q.ok, q.data, recordCount) == w'
  {
  }

  lemma PrefixOfExtended(r: seq<byte>, m: nat)
    ensures r <= Extended(r, m) <==> m >= |r|
  {
    if m >= |r| { assert Extended(r, m)[..|r|] == r; }
  }

  /** A 49-byte record, as a full sensor record with a one-character name has: the walk closes it
      one byte short, and the name is the byte that is missing. */
  lemma LastByteIsMissed(recordCount: nat, rs: seq<Response>, r: seq<byte>, next: (byte, byte), n: nat)
    requires recordCount < 0x1_0000 && Run(recordCount, rs).phase == Awaiting && Run(recordCount, rs).iCnt == 0
    requires |r| == 49 && LengthByte(r) == 44 && n == 3
    ensures var w, w' := Run(recordCount, rs), Run(recordCount, rs + Served(recordCount, rs, r, next, n));
      |w'.records| == |w.records| + 1 && Payload(w'.records[|w.records|]) == r[..48]
  {
    RecordFromDevice(recordCount, rs, r, next, n);
    ExtendedWithin(r, 48);
  }

  lemma ExtendedWithin(r: seq<byte>, m: nat)
    requires m <= |r|
    ensures Extended(r, m) == r[..m]
  {
  }
}
