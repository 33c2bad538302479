/**
 The guard's scan screen, src/screens/guard/qr/ScanQrScreen.jsx, reduced to its
 decisions: what happens to a scanned code (`handleBarCodeScanned`), how the
 checklist is toggled, and when the guard may confirm the visit. Camera, alerts,
 timers and React state are left out; the screen's state is passed in and returned.
 */
module ScanQrScreen {
  import opened Wrappers
  import opened JsText
  import opened QrScanData
  import opened VisitPayload

  /** JavaScript truthiness of an optional string: present and not empty. */
  predicate Truthy(v: Option<string>) {
    v.Some? && v.value != ""
  }

  // ---------------------------------------------------------------------------
  // Handling a scanned code
  // ---------------------------------------------------------------------------

  /** What the screen shows after a scan: the "invalid QR" alert, the "already
      processed" alert, or the visit with the status and count the ledger returned. */
  datatype Outcome =
    | InvalidQr
    | AlreadyProcessed
    | Scanned(visit: Descriptor, status: string, scanCount: int)

  datatype Handled = Handled(outcome: Outcome, stored: Stored)

  /** The completeness check: the decoded payload is an object with a non-empty
      visitor name and a non-empty house. A non-object (including `null`, whose field
      access throws) fails it too. */
  predicate Complete(parsed: Json) {
    parsed.JObject? && Truthy(parsed.fields.visitorName) && Truthy(parsed.fields.houseId)
  }

  /** The ledger key of a complete payload: its `qrCode` as a property key. */
  function KeyOf(parsed: Json): string
    requires parsed.JObject?
  {
    PropertyKey(parsed.fields.qrCode)
  }

  /** `getQrScanData(qrCode)` found a record whose count is 2 or more. */
  predicate AlreadyDone(stored: Stored, probeFails: bool, key: string) {
    var existing := GetQrScanData(stored, probeFails, key);
    existing.Some? && existing.value.scanCount >= 2
  }

  /** `handleBarCodeScanned`: an incomplete payload is rejected with storage left
      alone; a key whose record is already at 2 is reported as processed with
      storage left alone; otherwise the scan is registered, and the outcome carries
      the parsed visit with exactly the reply `registerQrScan` gave. `probeFails` is
      the fault of the `getQrScanData` read, `faults` those of `registerQrScan`. */
  function HandleBarCodeScanned(text: string, decoded: Option<Json>, stored: Stored,
                                probeFails: bool, faults: Faults, now: int): (r: Handled)
    ensures !Complete(ParseVisitData(text, decoded)) ==> r == Handled(InvalidQr, stored)
    ensures r.outcome.AlreadyProcessed? ==> r.stored == stored
    ensures r.outcome.Scanned? ==>
              var parsed := ParseVisitData(text, decoded);
              var reg := RegisterQrScan(stored, faults, KeyOf(parsed), now);
              && Complete(parsed)
              && !AlreadyDone(stored, probeFails, KeyOf(parsed))
              && r.outcome == Scanned(parsed.fields, reg.reply.status, reg.reply.scanCount)
              && r.stored == reg.stored
    ensures Complete(ParseVisitData(text, decoded)) ==>
              (r.outcome.AlreadyProcessed? <==> AlreadyDone(stored, probeFails, KeyOf(ParseVisitData(text, decoded))))
    ensures Complete(ParseVisitData(text, decoded)) && !AlreadyDone(stored, probeFails, KeyOf(ParseVisitData(text, decoded))) ==>
              r.outcome.Scanned?
  {
    var parsed := ParseVisitData(text, decoded);
    if !Complete(parsed) then Handled(InvalidQr, stored)
    else
      var key := KeyOf(parsed);
      if AlreadyDone(stored, probeFails, key) then Handled(AlreadyProcessed, stored)
      else
        var reg := RegisterQrScan(stored, faults, key, now);
        Handled(Scanned(parsed.fields, reg.reply.status, reg.reply.scanCount), reg.stored)
  }

  /** The screen's early stop agrees with the ledger's ceiling: for a key where it
      declines to call `registerQrScan` (see the last ensures of
      `HandleBarCodeScanned`), that call would have left storage as it was and
      answered with the stored status and count, or with the error reply. */
  lemma GateAgreesWithCeiling(stored: Stored, probeFails: bool, faults: Faults, key: string, now: int)
    requires AlreadyDone(stored, probeFails, key)
    ensures var reg := RegisterQrScan(stored, faults, key, now);
            && reg.stored == stored
            && (reg.reply == ErrorReply ||
                reg.reply == Reply(StatusName(EntryOf(stored, key).value.status), CountOf(stored, key)))
  {
  }

  /** Presenting the same complete payload three times at a gate whose storage works
      and that has no record of it: first "in_progress" with count 1, then
      "completed" with count 2, then the "already processed" alert with storage
      unchanged. */
  lemma {:induction false} ThirdScanIsAlreadyProcessed(text: string, decoded: Option<Json>, stored: Stored, t1: int, t2: int, t3: int)
    requires Complete(ParseVisitData(text, decoded))
    requires EntryOf(stored, KeyOf(ParseVisitData(text, decoded))).None?
    ensures var parsed := ParseVisitData(text, decoded);
            var h1 := HandleBarCodeScanned(text, decoded, stored, false, NoFaults, t1);
            var h2 := HandleBarCodeScanned(text, decoded, h1.stored, false, NoFaults, t2);
            var h3 := HandleBarCodeScanned(text, decoded, h2.stored, false, NoFaults, t3);
            && h1.outcome == Scanned(parsed.fields, "in_progress", 1)
            && h2.outcome == Scanned(parsed.fields, "completed", 2)
            && h3 == Handled(AlreadyProcessed, h2.stored)
  {
    var parsed := ParseVisitData(text, decoded);
    var key := KeyOf(parsed);
    ThreeScansReachCeiling(stored, key, t1, t2, t3);
    var r1 := RegisterQrScan(stored, NoFaults, key, t1);
    var r2 := RegisterQrScan(r1.stored, NoFaults, key, t2);
    assert !AlreadyDone(stored, false, key);
    assert EntryOf(r1.stored, key).value.scanCount == 1;
    assert !AlreadyDone(r1.stored, false, key);
    assert EntryOf(r2.stored, key).value.scanCount == 2;
    assert AlreadyDone(r2.stored, false, key);
  }

  // ---------------------------------------------------------------------------
  // The checklist
  // ---------------------------------------------------------------------------

  /** The four checks the guard ticks off. */
  datatype Checklist = Checklist(nameMatch: bool, peopleMatch: bool, vehicleMatch: bool, authorized: bool)

  /** The names `toggleChecklistItem` is called with. */
  datatype Item = NameMatch | PeopleMatch | VehicleMatch | Authorized

  function Flag(c: Checklist, item: Item): bool {
    match item
    case NameMatch => c.nameMatch
    case PeopleMatch => c.peopleMatch
    case VehicleMatch => c.vehicleMatch
    case Authorized => c.authorized
  }

  /** `toggleChecklistItem`: flips the named check and leaves the other three as they
      were. */
  function ToggleChecklistItem(c: Checklist, item: Item): (r: Checklist)
    ensures Flag(r, item) == !Flag(c, item)
    ensures forall other :: other != item ==> Flag(r, other) == Flag(c, other)
  {
    match item
    case NameMatch => c.(nameMatch := !c.nameMatch)
    case PeopleMatch => c.(peopleMatch := !c.peopleMatch)
    case VehicleMatch => c.(vehicleMatch := !c.vehicleMatch)
    case Authorized => c.(authorized := !c.authorized)
  }

  /** Toggling the same check twice restores the checklist, and toggles of different
      checks commute. */
  lemma ToggleInvolutive(c: Checklist, i: Item, j: Item)
    ensures ToggleChecklistItem(ToggleChecklistItem(c, i), i) == c
    ensures ToggleChecklistItem(ToggleChecklistItem(c, i), j) == ToggleChecklistItem(ToggleChecklistItem(c, j), i)
  {
  }

  // ---------------------------------------------------------------------------
  // Confirming
  // ---------------------------------------------------------------------------

  /** The visit arrives by vehicle: a vehicle is given and it is not "no" or
      "ninguno" in any letter case. */
  predicate HasVehicle(visit: Option<Descriptor>) {
    && visit.Some?
    && Truthy(visit.value.vehicle)
    && Lower(visit.value.vehicle.value) != "no"
    && Lower(visit.value.vehicle.value) != "ninguno"
  }

  /** `canConfirm`: the guard may confirm exactly when the visit is ticked as
      authorized and, for a visit by vehicle, both the trunk and the plate photo have
      been taken. The other three checks play no part. */
  function CanConfirm(c: Checklist, visit: Option<Descriptor>, trunkPhoto: Option<string>, platePhoto: Option<string>): (r: bool)
    ensures r ==> c.authorized
    ensures r ==> HasVehicle(visit) ==> Truthy(trunkPhoto) && Truthy(platePhoto)
    ensures c.authorized && !HasVehicle(visit) ==> r
    ensures c.authorized && Truthy(trunkPhoto) && Truthy(platePhoto) ==> r
  {
    var photosRequired := HasVehicle(visit);
    var hasPhotos := Truthy(trunkPhoto) && Truthy(platePhoto);
    c.authorized && (!photosRequired || hasPhotos)
  }

  /** Ticking or unticking any check other than "authorized" never changes whether
      the guard may confirm. */
  lemma CanConfirmIgnoresOtherChecks(c: Checklist, item: Item, visit: Option<Descriptor>,
                                     trunkPhoto: Option<string>, platePhoto: Option<string>)
    requires item != Authorized
    ensures CanConfirm(ToggleChecklistItem(c, item), visit, trunkPhoto, platePhoto)
            == CanConfirm(c, visit, trunkPhoto, platePhoto)
  {
  }

  /** A visit whose vehicle is written "NO" or "Ninguno" needs no photos: the
      comparison ignores letter case. */
  lemma DeclinedVehicleNeedsNoPhotos(c: Checklist, d: Descriptor)
    requires d.vehicle == Some("NO") || d.vehicle == Some("Ninguno")
    ensures CanConfirm(c, Some(d), None, None) == c.authorized
  {
    assert Lower("NO") == "no";
    assert Lower("Ninguno") == "ninguno";
  }

  /** A visit by car cannot be confirmed until both photos exist, even when every
      check is ticked. */
  lemma CarNeedsBothPhotos(d: Descriptor, photo: Option<string>)
    requires d.vehicle == Some("Sedan gris")
    ensures !CanConfirm(Checklist(true, true, true, true), Some(d), photo, None)
    ensures !CanConfirm(Checklist(true, true, true, true), Some(d), None, photo)
  {
    assert Lower("Sedan gris") != "no" by {
      assert |Lower("Sedan gris")| != |"no"|;
    }
    assert Lower("Sedan gris") != "ninguno" by {
      assert |Lower("Sedan gris")| != |"ninguno"|;
    }
  }
}
