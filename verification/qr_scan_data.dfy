/**
 The local scan ledger of src/config/QrScanData.ts: a map from a visit's QR key to
 how often that QR has been presented at the gate, kept in one storage slot.

 Storage is modelled as a value: `Stored` is what the slot holds (`None` when the
 slot is empty), and each operation takes flags saying whether the storage read,
 write or remove it performs fails. The clock is a parameter `now`.
 */
module QrScanData {
  import opened Wrappers
  import opened JsText

  /** The progress of a visit; `Pending` is never written by the ledger itself. */
  datatype Status = Pending | InProgress | Completed

  /** The status as the string the source stores and returns. */
  function StatusName(s: Status): string {
    match s
    case Pending => "pending"
    case InProgress => "in_progress"
    case Completed => "completed"
  }

  /** One ledger entry. */
  datatype ScanRecord = ScanRecord(qrCode: string, scanCount: int, lastScanTime: int, status: Status)

  type Ledger = map<string, ScanRecord>

  /** The contents of the storage slot: `None` when nothing is stored under it. */
  type Stored = Option<Ledger>

  /** Which storage calls of one operation fail. */
  datatype Faults = Faults(readFails: bool, writeFails: bool)

  const NoFaults := Faults(false, false)

  /** The `{status, scanCount}` pair `registerQrScan` returns. */
  datatype Reply = Reply(status: string, scanCount: int)

  /** The sentinel returned when a scan could not be recorded. */
  const ErrorReply := Reply("error", 0)

  /** The status a scan count stands for. */
  function StatusFor(count: int): Status {
    if count <= 0 then Pending else if count == 1 then InProgress else Completed
  }

  /** The shape every entry the ledger writes has: keyed by its own QR code, scanned
      once or twice, with the status that count stands for. */
  predicate WellFormed(l: Ledger) {
    forall k :: k in l ==>
      && l[k].qrCode == k
      && 1 <= l[k].scanCount <= 2
      && l[k].status == StatusFor(l[k].scanCount)
  }

  /** The scan count stored under `k`; 0 when there is no entry. */
  function CountOf(stored: Stored, k: string): int {
    if stored.Some? && k in stored.value then stored.value[k].scanCount else 0
  }

  /** The entry stored under `k`, if any. */
  function EntryOf(stored: Stored, k: string): Option<ScanRecord> {
    if stored.Some? && k in stored.value then Some(stored.value[k]) else None
  }

  // ---------------------------------------------------------------------------
  // Reading
  // ---------------------------------------------------------------------------

  /** `getQrScans`: the stored ledger; an empty slot and a failed read both give the
      empty map. */
  function GetQrScans(stored: Stored, readFails: bool): (l: Ledger)
    ensures readFails || stored.None? ==> l == map[]
    ensures forall k :: k in l ==> EntryOf(stored, k) == Some(l[k])
    ensures !readFails ==> forall k :: EntryOf(stored, k).Some? ==> k in l
  {
    if readFails then map[] else stored.GetOr(map[])
  }

  /** `getQrScanData`: the entry under `qrCode`; absent when there is none or when
      the read fails. */
  function GetQrScanData(stored: Stored, readFails: bool, qrCode: string): (r: Option<ScanRecord>)
    ensures r.Some? <==> !readFails && EntryOf(stored, qrCode).Some?
    ensures r.Some? ==> r == EntryOf(stored, qrCode)
  {
    var scans := GetQrScans(stored, readFails);
    if qrCode in scans then Some(scans[qrCode]) else None
  }

  // ---------------------------------------------------------------------------
  // Recording a scan
  // ---------------------------------------------------------------------------

  /** The in-memory part of `registerQrScan`: either the ledger is left alone, or a
      new ledger is to be written back. */
  datatype Step = Unchanged(reply: Reply) | Updated(ledger: Ledger, reply: Reply)

  /** The per-key state machine: no entry -> count 1 (in_progress) -> count 2
      (completed); an entry already at 2 or more is echoed back and not touched. */
  function ScanStep(l: Ledger, qrCode: string, now: int): (r: Step)
    ensures qrCode !in l ==>
              r == Updated(l[qrCode := ScanRecord(qrCode, 1, now, InProgress)], Reply("in_progress", 1))
    ensures qrCode in l && l[qrCode].scanCount >= 2 ==>
              r == Unchanged(Reply(StatusName(l[qrCode].status), l[qrCode].scanCount))
    ensures qrCode in l && l[qrCode].scanCount < 2 ==>
              && r.Updated?
              && qrCode in r.ledger
              && r.ledger[qrCode].scanCount == l[qrCode].scanCount + 1
              && r.ledger[qrCode].lastScanTime == now
              && r.ledger[qrCode].qrCode == l[qrCode].qrCode
              && r.ledger[qrCode].status ==
                   (if l[qrCode].scanCount == 0 then InProgress
                    else if l[qrCode].scanCount == 1 then Completed
                    else l[qrCode].status)
    ensures r.Updated? ==>
              && r.ledger.Keys == l.Keys + {qrCode}
              && (forall k :: k in l && k != qrCode ==> r.ledger[k] == l[k])
              && r.reply == Reply(StatusName(r.ledger[qrCode].status), r.ledger[qrCode].scanCount)
  {
    if qrCode in l then
      var current := l[qrCode];
      if current.scanCount >= 2 then
        Unchanged(Reply(StatusName(current.status), current.scanCount))
      else
        var count := current.scanCount + 1;
        var status := if count == 1 then InProgress else if count == 2 then Completed else current.status;
        var next := current.(scanCount := count, lastScanTime := now, status := status);
        var l' := l[qrCode := next];
        Updated(l', Reply(StatusName(next.status), next.scanCount))
    else
      var first := ScanRecord(qrCode, 1, now, InProgress);
      var l' := l[qrCode := first];
      Updated(l', Reply(StatusName(first.status), first.scanCount))
  }

  /** What `registerQrScan` hands back, together with the slot's contents after it. */
  datatype Registered = Registered(reply: Reply, stored: Stored)

  /** Applies a ledger step to storage: an updated ledger is written back, and a
      failed write leaves the slot alone and answers with the error sentinel. */
  function Commit(stored: Stored, step: Step, writeFails: bool): Registered {
    match step
    case Unchanged(reply) => Registered(reply, stored)
    case Updated(l', reply) => if writeFails then Registered(ErrorReply, stored) else Registered(reply, Some(l'))
  }

  /** `registerQrScan` exactly as written: its read goes through `getQrScans`, which
      turns a failed read into the empty map, so the step then runs on an empty
      ledger and the write replaces everything stored with a one-entry map. */
  function RegisterQrScanAsWritten(stored: Stored, faults: Faults, qrCode: string, now: int): (r: Registered)
    ensures !faults.readFails ==> r == RegisterQrScan(stored, faults, qrCode, now)
    ensures faults.readFails && faults.writeFails ==> r == Registered(ErrorReply, stored)
    ensures faults.readFails && !faults.writeFails ==>
              r == Registered(Reply("in_progress", 1), Some(map[qrCode := ScanRecord(qrCode, 1, now, InProgress)]))
  {
    var scans := GetQrScans(stored, faults.readFails);
    Commit(stored, ScanStep(scans, qrCode, now), faults.writeFails)
  }

  /** `registerQrScan` as the ledger is meant to behave: any storage failure, on the
      read as on the write, leaves the slot unchanged and answers with the error
      sentinel. Every other key keeps its entry, and a non-error reply is exactly
      what is then stored under `qrCode`. */
  function RegisterQrScan(stored: Stored, faults: Faults, qrCode: string, now: int): (r: Registered)
    ensures faults.readFails ==> r == Registered(ErrorReply, stored)
    ensures r.reply == ErrorReply ==> r.stored == stored
    ensures forall k :: k != qrCode ==> EntryOf(r.stored, k) == EntryOf(stored, k)
    ensures r.reply != ErrorReply ==>
              && EntryOf(r.stored, qrCode).Some?
              && r.reply == Reply(StatusName(EntryOf(r.stored, qrCode).value.status), CountOf(r.stored, qrCode))
    ensures !faults.readFails && !faults.writeFails ==> r.reply != ErrorReply
    ensures !faults.readFails && !faults.writeFails && CountOf(stored, qrCode) < 2 ==>
              && CountOf(r.stored, qrCode) == CountOf(stored, qrCode) + 1
              && EntryOf(r.stored, qrCode).value.lastScanTime == now
    ensures !faults.readFails && !faults.writeFails && 0 <= CountOf(stored, qrCode) < 2 ==>
              EntryOf(r.stored, qrCode).value.status == StatusFor(CountOf(stored, qrCode) + 1)
    ensures !faults.readFails && faults.writeFails && CountOf(stored, qrCode) < 2 ==> r == Registered(ErrorReply, stored)
    ensures CountOf(stored, qrCode) >= 2 ==> r.stored == stored
    ensures !faults.readFails && CountOf(stored, qrCode) >= 2 ==> r.reply != ErrorReply
    ensures CountOf(stored, qrCode) <= CountOf(r.stored, qrCode)
    ensures CountOf(r.stored, qrCode) <= if CountOf(stored, qrCode) < 2 then 2 else CountOf(stored, qrCode)
  {
    if faults.readFails then Registered(ErrorReply, stored)
    else Commit(stored, ScanStep(stored.GetOr(map[]), qrCode, now), faults.writeFails)
  }

  /** The ledger keeps its shape under every scan, whatever fails. */
  lemma RegisterKeepsWellFormed(stored: Stored, faults: Faults, qrCode: string, now: int)
    requires stored.Some? ==> WellFormed(stored.value)
    ensures var r := RegisterQrScan(stored, faults, qrCode, now);
            r.stored.Some? ==> WellFormed(r.stored.value)
  {
  }

  // ---------------------------------------------------------------------------
  // Clearing
  // ---------------------------------------------------------------------------

  /** `clearAllQrScans`: empties the slot; a failed remove leaves it as it was. */
  function ClearAllQrScans(stored: Stored, removeFails: bool): (r: Stored)
    ensures !removeFails ==> forall k :: EntryOf(r, k).None?
    ensures removeFails ==> r == stored
  {
    if removeFails then stored else None
  }

  /** After a successful clear, the ledger reads as empty and any key starts again
      from its first scan. */
  lemma ClearForgetsEverything(stored: Stored, qrCode: string, now: int)
    ensures GetQrScans(ClearAllQrScans(stored, false), false) == map[]
    ensures RegisterQrScan(ClearAllQrScans(stored, false), NoFaults, qrCode, now).reply == Reply("in_progress", 1)
  {
  }

  // ---------------------------------------------------------------------------
  // Sequences of scans
  // ---------------------------------------------------------------------------

  /** One call of `registerQrScan`: the key, the storage faults it meets, the clock. */
  datatype ScanCall = ScanCall(qrCode: string, faults: Faults, now: int)

  /** The slot's contents after the calls, made one after the other. */
  function RunScans(stored: Stored, calls: seq<ScanCall>): Stored
    decreases |calls|
  {
    if |calls| == 0 then stored
    else
      var c := calls[0];
      RunScans(RegisterQrScan(stored, c.faults, c.qrCode, c.now).stored, calls[1..])
  }

  /** Over any sequence of scans of any keys, with any storage faults, no key's count
      goes down, and none rises above 2 unless it was already above. */
  lemma {:induction false} ScanCountMonotoneAndBounded(stored: Stored, calls: seq<ScanCall>, k: string)
    ensures CountOf(stored, k) <= CountOf(RunScans(stored, calls), k)
    ensures CountOf(RunScans(stored, calls), k) <= if CountOf(stored, k) < 2 then 2 else CountOf(stored, k)
    decreases |calls|
  {
    if |calls| > 0 {
      var c := calls[0];
      var next := RegisterQrScan(stored, c.faults, c.qrCode, c.now).stored;
      ScanCountMonotoneAndBounded(next, calls[1..], k);
    }
  }

  /** Scanning a fresh key three times with working storage answers
      (in_progress, 1), (completed, 2), (completed, 2): the third scan is a no-op. */
  lemma ThreeScansReachCeiling(stored: Stored, qrCode: string, t1: int, t2: int, t3: int)
    requires EntryOf(stored, qrCode).None?
    ensures var r1 := RegisterQrScan(stored, NoFaults, qrCode, t1);
            var r2 := RegisterQrScan(r1.stored, NoFaults, qrCode, t2);
            var r3 := RegisterQrScan(r2.stored, NoFaults, qrCode, t3);
            && r1.reply == Reply("in_progress", 1)
            && r2.reply == Reply("completed", 2)
            && r3.reply == Reply("completed", 2)
            && r3.stored == r2.stored
  {
    var r1 := RegisterQrScan(stored, NoFaults, qrCode, t1);
    assert EntryOf(r1.stored, qrCode) == Some(ScanRecord(qrCode, 1, t1, InProgress));
    var r2 := RegisterQrScan(r1.stored, NoFaults, qrCode, t2);
    assert EntryOf(r2.stored, qrCode) == Some(ScanRecord(qrCode, 2, t2, Completed));
  }

  /** A reply that is not the error sentinel is what a following read of the same key
      reports. */
  lemma ReplyMatchesStoredEntry(stored: Stored, faults: Faults, qrCode: string, now: int)
    ensures var r := RegisterQrScan(stored, faults, qrCode, now);
            r.reply != ErrorReply ==>
              && GetQrScanData(r.stored, false, qrCode).Some?
              && var e := GetQrScanData(r.stored, false, qrCode).value;
                 r.reply == Reply(StatusName(e.status), e.scanCount)
  {
  }

  /** Witness for the defect in `RegisterQrScanAsWritten`: a completed visit "a" and an
      in-progress visit "b" are stored; one scan of "a" whose read fails but whose
      write succeeds leaves "a" back at count 1 and "b" gone. */
  lemma AsWrittenReadFailureLosesLedger()
    ensures var before := Some(map["a" := ScanRecord("a", 2, 10, Completed), "b" := ScanRecord("b", 1, 20, InProgress)]);
            var r := RegisterQrScanAsWritten(before, Faults(true, false), "a", 30);
            && CountOf(r.stored, "a") == 1 < CountOf(before, "a")
            && EntryOf(before, "b").Some? && EntryOf(r.stored, "b").None?
  {
  }

  // ---------------------------------------------------------------------------
  // Annotating a list of visits
  // ---------------------------------------------------------------------------

  /** A visit as the backend lists it: the fields the ledger reads or writes, plus the
      rest of the record, which passes through untouched. */
  datatype Visit = Visit(qrCode: KeyValue, status: Option<string>, scanCount: Option<int>, others: map<string, string>)

  /** `updateVisitsWithScanData`: the same visits in the same order; a visit whose key
      has a ledger entry takes that entry's status and scan count, every other visit
      is returned unchanged. A failed read annotates nothing. */
  method UpdateVisitsWithScanData(visits: seq<Visit>, stored: Stored, readFails: bool) returns (updated: seq<Visit>)
    ensures |updated| == |visits|
    ensures forall i :: 0 <= i < |visits| ==>
              var e := GetQrScanData(stored, readFails, PropertyKey(visits[i].qrCode));
              updated[i] == if e.Some?
                            then visits[i].(status := Some(StatusName(e.value.status)), scanCount := Some(e.value.scanCount))
                            else visits[i]
    ensures readFails ==> updated == visits
  {
    var scans := GetQrScans(stored, readFails);
    updated := visits;
    var i := 0;
    while i < |updated|
      invariant 0 <= i <= |updated| == |visits|
      invariant forall j :: i <= j < |visits| ==> updated[j] == visits[j]
      invariant forall j :: 0 <= j < i ==>
                  var key := PropertyKey(visits[j].qrCode);
                  updated[j] == if key in scans
                                then visits[j].(status := Some(StatusName(scans[key].status)), scanCount := Some(scans[key].scanCount))
                                else visits[j]
    {
      var visit := updated[i];
      var key := PropertyKey(visit.qrCode);
      if key in scans {
        updated := updated[i := visit.(status := Some(StatusName(scans[key].status)), scanCount := Some(scans[key].scanCount))];
      }
      i := i + 1;
    }
  }
}
