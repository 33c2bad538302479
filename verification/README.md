# QR visit-scan lifecycle of the COSEVIF guard app, in Dafny

This project models the two pieces of the residential access-control app that actually hold logic: the guard's handling of a scanned visit QR code, and the local scan ledger behind it.

- **Scan ledger** (`QrScanData`, from `src/config/QrScanData.ts`). This is a map from a visit's QR key to a record `{qrCode, scanCount, lastScanTime, status}`, kept in a single storage slot. For each key, recording a scan follows a small state machine: no record, then `in_progress` at count 1, then `completed` at count 2. Count 2 is a ceiling, and a scan at the ceiling only echoes the stored record back. The module also covers reading the whole ledger, reading one entry, clearing the slot, and annotating a list of visits with their ledger status. Storage is a value (`Stored`, where `None` means the slot is empty). Each operation takes flags that say whether its storage read, write or remove fails.
- **Payload parser** (`VisitPayload`, from `parseVisitData` in `src/screens/guard/qr/ScanQrScreen.jsx`). Text that `JSON.parse` accepts is returned exactly as decoded. Any other text is read as Spanish labelled lines (`Casa:`, `Visitante:`, `Fecha y Hora:`, `Vehículo:`, `Clave de acceso:`, `Personas:`, `Descripción:`). The ledger key is then derived as `houseId-visitorName`, with every whitespace run replaced by `-` and the result lower-cased.
- **Scan screen decisions** (`ScanQrScreen`). `handleBarCodeScanned` rejects a payload that lacks a visitor or a house. It stops early when the ledger already shows the visit completed, and otherwise records the scan. `toggleChecklistItem` flips one check. `canConfirm` decides whether the guard may confirm the visit.
- **JavaScript string semantics** (`JsText`). This module defines `split`, `includes`, `split(label)[1]`, `trim`, `replace(/\s+/g, "-")`, `toLowerCase`, `Number.parseInt` and the conversion of `undefined`, `null` or a string to a property key, each once. The contracts of `Split`, `IndexOf`, `SecondPiece`, `Trim` and `Lower` pin their results down. `ReplaceWhitespaceRuns` is pinned down by its contract together with the lemma `ReplaceWhitespaceRunsSplits`. `ParseInt` has no contract of its own: the lemmas `ParseIntReadsDecimal` and `ParseIntNaN` describe it for decimal numerals and for text that does not start with a number.

## Model

| member | source | states |
|---|---|---|
| QrScanData.GetQrScans | src/config/QrScanData.ts:17-25 | The ledger read is exactly what the slot holds. An empty slot or a failed read gives the empty map, never an error. |
| QrScanData.GetQrScanData | src/config/QrScanData.ts:30-38 | An entry is returned iff the read succeeds and the slot has an entry under the key, and it is that entry. Otherwise the result is absent. |
| QrScanData.ScanStep | src/config/QrScanData.ts:49-79 | No record: a record is created with count 1, status in_progress and time `now`. Count below 2: the count rises by exactly 1, and the status becomes in_progress at 1 and completed at 2. Count 2 or more: nothing changes and the stored status and count are echoed. Other keys keep their records, and the reply matches the new record. |
| QrScanData.RegisterQrScan | src/config/QrScanData.ts:44-92 | `registerQrScan` with storage faults. A failed read returns `{error, 0}` and leaves storage unchanged. So does a failed write below the ceiling. At the ceiling nothing is written, so a working read echoes the record whatever the write would do. With working storage the reply is never the error, and a key below 2 has its count raised by exactly 1 and its time set to `now`, and from count 0 or 1 it is stored and replied as in_progress at 1 and completed at 2. A key at 2 or more leaves storage unchanged. Every other key's entry is untouched. A non-error reply is what is then stored under the key. The key's count never decreases and never passes 2. |
| QrScanData.RegisterQrScanAsWritten | src/config/QrScanData.ts:44-92 | The source as written: with a working read it is `RegisterQrScan`. A failed read followed by a working write replaces the whole ledger with a single fresh record. A failed read followed by a failed write answers `{error, 0}` and leaves the slot unchanged. |
| QrScanData.AsWrittenReadFailureLosesLedger | src/config/QrScanData.ts:44-82 | The concrete input under Findings: a completed visit drops back to count 1, and another visit's record is lost. |
| QrScanData.RegisterKeepsWellFormed | src/config/QrScanData.ts:61-78 | Scans keep every record keyed by its own code (for a missing or `null` key, the model stores the key text; see Left out), with count 1 or 2 and the status that count stands for. |
| QrScanData.ScanCountMonotoneAndBounded | src/config/QrScanData.ts:49-78 | Over any sequence of scans of any keys, with any storage faults, no key's count decreases or rises above 2. |
| QrScanData.ThreeScansReachCeiling | src/config/QrScanData.ts:49-87 | Three scans of an unseen key reply (in_progress, 1), (completed, 2), (completed, 2), and the third leaves storage unchanged. |
| QrScanData.ReplyMatchesStoredEntry | src/config/QrScanData.ts:84-87 | A non-error reply agrees with what a following `getQrScanData` of the same key returns. |
| QrScanData.ClearAllQrScans | src/config/QrScanData.ts:123-129 | A successful clear leaves no entry under any key. A failed remove leaves the slot as it was. |
| QrScanData.ClearForgetsEverything | src/config/QrScanData.ts:123-129 | After a clear, the ledger reads as empty and the next scan of any key starts again at (in_progress, 1). |
| QrScanData.UpdateVisitsWithScanData | src/config/QrScanData.ts:97-118 | The result has the same length and order as the input. A visit whose key has a ledger entry takes that entry's status and count, and every other visit passes through unchanged. A missing `qrCode` is looked up under "undefined" and a `null` one under "null". A failed read changes nothing. |
| VisitPayload.ParseVisitData | src/screens/guard/qr/ScanQrScreen.jsx:53-86 | A decoded JSON value is returned verbatim, including its own qrCode. Otherwise each labelled field holds the value of the last line with that label, and qrCode is derived from the last house and visitor lines. |
| VisitPayload.Classify | src/screens/guard/qr/ScanQrScreen.jsx:64-78 | A line sets the field of the first label, in the fixed order Casa … Descripción, that it contains anywhere. A line containing no label sets nothing. |
| VisitPayload.ApplyLine | src/screens/guard/qr/ScanQrScreen.jsx:63-79 | One line overwrites exactly one field with the trimmed text after its label (for Personas:, its parseInt) and leaves the others alone. A line without a label changes nothing. |
| VisitPayload.Set | src/screens/guard/qr/ScanQrScreen.jsx:65-77 | Storing a value (text, or for Personas: a parsed count) sets exactly the named field to it and leaves every other field and the key alone. |
| VisitPayload.ParseLinesLastWins | src/screens/guard/qr/ScanQrScreen.jsx:63-79 | After the line loop, each field holds the value of the last line that set it, or what it held before if no line did. |
| VisitPayload.ParseLinesIgnoresUnlabelled | src/screens/guard/qr/ScanQrScreen.jsx:63-79 | Dropping a line that has no label does not change the parse. |
| VisitPayload.DeriveQrCode | src/screens/guard/qr/ScanQrScreen.jsx:82 | The derived key contains no whitespace and no capital letters. |
| VisitPayload.DeriveQrCodeExample | src/screens/guard/qr/ScanQrScreen.jsx:82 | House "12" and visitor "Ana López" give the key "12-ana-lópez". |
| VisitPayload.DeriveQrCodeSeparatorCollision | src/screens/guard/qr/ScanQrScreen.jsx:81-82 | For every a, b and c, house "a-b" with visitor "c" and house "a" with visitor "b-c" get the same key, although the comment promises a unique key. |
| VisitPayload.DeriveQrCodeCollides | src/screens/guard/qr/ScanQrScreen.jsx:81-82 | House "1-2" with visitor "a" and house "1" with visitor "2-a" share the key "1-2-a". |
| VisitPayload.DeriveQrCodeUnique | src/screens/guard/qr/ScanQrScreen.jsx:81-82 | The corrected key: like the original, it has no whitespace and no capitals. |
| VisitPayload.EscapedJoinInjective | src/screens/guard/qr/ScanQrScreen.jsx:81-82 | An escaped house part closed by "-+" followed by a visitor part can be read back: equal keys have equal parts. |
| VisitPayload.DeriveQrCodeUniqueInjective | src/screens/guard/qr/ScanQrScreen.jsx:81-82 | Two visits share a corrected key exactly when their house ids and visitor names agree after whitespace runs become '-' and capitals become lower case. |
| VisitPayload.DeriveQrCodeUniqueSeparates | src/screens/guard/qr/ScanQrScreen.jsx:81-82 | The two visits that collide under the original key get different corrected keys. |
| VisitPayload.ParseHouseAndVisitor | src/screens/guard/qr/ScanQrScreen.jsx:53-86 | The text "Casa: h\nVisitante: v\n" parses to exactly house h and visitor v, no other field, and the key derived from them. This holds for trimmed, single-line values where neither value repeats its own label and the visitor line does not contain "Casa:". A visitor "Casa: 5" would make that line a house line instead. |
| VisitPayload.ParseExample | src/screens/guard/qr/ScanQrScreen.jsx:53-86 | The pass for house 12 and visitor Ana López parses with key "12-ana-lópez". |
| VisitPayload.ValueOfLabelledLine | src/screens/guard/qr/ScanQrScreen.jsx:65-67 | `line.split(label)[1].trim()` of "label value" is the value. This holds for a trimmed value that does not repeat the label. |
| JsText.Split | src/screens/guard/qr/ScanQrScreen.jsx:60 | `split("\n")` yields at least one piece. No piece contains a newline, and joining the pieces with newlines gives back the text. |
| JsText.SplitJoin | src/screens/guard/qr/ScanQrScreen.jsx:60 | Splitting newline-free pieces that were joined with newlines gives back the pieces. |
| JsText.IndexOf | src/screens/guard/qr/ScanQrScreen.jsx:64 | `includes`/`indexOf`: the first occurrence of the label, or none anywhere. |
| JsText.SecondPiece | src/screens/guard/qr/ScanQrScreen.jsx:65 | `split(label)[1]` is the text after the first label, up to the first occurrence of the label that starts at or after that point, or to the end. It contains no label. |
| JsText.Trim | src/screens/guard/qr/ScanQrScreen.jsx:65 | `trim` returns the slice of the input left after removing the whitespace runs at both ends. |
| JsText.ReplaceWhitespaceRuns | src/screens/guard/qr/ScanQrScreen.jsx:82 | `replace(/\s+/g, "-")` leaves no whitespace and keeps, in order, every character that is neither whitespace nor '-'. Text without whitespace is unchanged. Where whitespace runs go is fixed by `ReplaceWhitespaceRunsSplits`. |
| JsText.ReplaceWhitespaceRunsSplits | src/screens/guard/qr/ScanQrScreen.jsx:82 | Each maximal whitespace run becomes exactly one '-'. |
| JsText.Lower | src/screens/guard/qr/ScanQrScreen.jsx:82 | `toLowerCase` preserves length, maps every character to its lower-case form, and leaves no capitals. |
| JsText.ParseIntReadsDecimal | src/screens/guard/qr/ScanQrScreen.jsx:75 | `parseInt` reads back any decimal integer, whatever non-digit text follows, except "0" followed by x/X, which it takes as a hexadecimal prefix. |
| JsText.ParseIntNaN | src/screens/guard/qr/ScanQrScreen.jsx:75 | Text that does not start with a sign or a digit gives NaN. |
| JsText.PropertyKeyConversions | src/config/QrScanData.ts:106-107 | `scans[qrCode]` with `qrCode` undefined or null looks up different entries, "undefined" and "null", the same ones a string spelling them would. |
| ScanQrScreen.HandleBarCodeScanned | src/screens/guard/qr/ScanQrScreen.jsx:95-128 | An incomplete payload (no visitor or house, or not an object) is rejected before the ledger is read or written. A key already at count 2 or more is reported as processed and storage is untouched. Every other complete payload is registered: the outcome carries the parsed visit with exactly the reply `registerQrScan` gave, and storage is what that call left. A JSON payload whose `qrCode` is `null` is keyed under "null", and one without `qrCode` under "undefined". |
| ScanQrScreen.GateAgreesWithCeiling | src/screens/guard/qr/ScanQrScreen.jsx:106-115 | Wherever the screen declines to call `registerQrScan`, that call would have left storage unchanged and echoed the stored record (or failed). |
| ScanQrScreen.ThirdScanIsAlreadyProcessed | src/screens/guard/qr/ScanQrScreen.jsx:95-128 | The same complete pass scanned three times shows (in_progress, 1), then (completed, 2), then the "already processed" alert with storage unchanged. |
| ScanQrScreen.ToggleChecklistItem | src/screens/guard/qr/ScanQrScreen.jsx:186-191 | Exactly the named check flips, and the other three keep their values. |
| ScanQrScreen.ToggleInvolutive | src/screens/guard/qr/ScanQrScreen.jsx:186-191 | Toggling twice restores the checklist, and toggles of different checks commute. |
| ScanQrScreen.CanConfirm | src/screens/guard/qr/ScanQrScreen.jsx:194-205 | Confirming is possible iff the visit is ticked as authorized and, for a visit by vehicle, both photos exist. |
| ScanQrScreen.CanConfirmIgnoresOtherChecks | src/screens/guard/qr/ScanQrScreen.jsx:194-205 | The name, people and vehicle checks never affect whether the guard may confirm. |
| ScanQrScreen.DeclinedVehicleNeedsNoPhotos | src/screens/guard/qr/ScanQrScreen.jsx:199-200 | A vehicle written "NO" or "Ninguno" counts as no vehicle, because the comparison ignores case. |
| ScanQrScreen.CarNeedsBothPhotos | src/screens/guard/qr/ScanQrScreen.jsx:199-204 | A visit by car cannot be confirmed with only one photo, even with every check ticked. |

Behaviour of the source that the model keeps:

- At the ceiling, `registerQrScan` echoes the stored status and count (src/config/QrScanData.ts:53-57). It does not answer a fixed `{completed, 2}`.
- The status is recomputed only when the new count is 1 or 2 (src/config/QrScanData.ts:64-68).
- The key is built by replacing whitespace first and lower-casing second (src/screens/guard/qr/ScanQrScreen.jsx:82). The two steps commute.
- A decoded JSON value that is not an object (a number, string, array or `null`) is returned by the parser unchanged (src/screens/guard/qr/ScanQrScreen.jsx:56-57). The screen then rejects it as incomplete (lines 98-100).
- A storage failure during the read in `registerQrScan` does not return the error sentinel, because `getQrScans` turns it into an empty ledger (src/config/QrScanData.ts:18-24, 46). See Findings.

## Left out

- Storage is modelled without `AsyncStorage`: the slot is a value passed in and returned, and each call's failures are boolean parameters. Writing the ledger with `JSON.stringify` and reading it back with `JSON.parse` is assumed to be lossless. A failed write is assumed to leave the slot unchanged.
- `Date.now()` is the parameter `now`, and the model makes no claim about its value.
- `JSON.parse` of the scanned text is an input, `decoded` (`None` when it throws), not a JSON grammar. Only the descriptor's fields are modelled, as strings, so extra JSON fields and non-string field values are left out.
- JsText.Lower: maps only A-Z and the Latin-1 capitals U+00C0..U+00DE (except U+00D7). The rest of Unicode case mapping is not modelled.
- JsText.ParseInt: returns an exact integer. JavaScript's double-precision rounding above 2^53 and the distinction between -0 and 0 are not modelled.
- Stored records are assumed to carry an integer `scanCount`. A hand-edited blob with a missing or non-numeric count (`undefined + 1` is NaN) is not modelled.
- Descriptor fields other than `qrCode` do not tell `null` from `undefined`: both are `None`. The screen only tests those fields for truthiness, where the two agree.
- Property lookups that hit `Object.prototype` (`scans["constructor"]`) are not modelled. Keys are plain map keys.
- QrScanData.UpdateVisitsWithScanData: returns new visit values. In the source, `[...visits]` is a shallow copy, so the caller's visit objects are themselves mutated. The `null`-element path (a TypeError that returns the input list) is also not modelled.
- A visit descriptor without a `qrCode` is stored in the source as a record whose `qrCode` is `undefined`, which `JSON.stringify` drops, under the key "undefined"; a `null` key stores `qrCode: null`. The model stores the key text ("undefined" or "null") in the record. Nothing in the core reads that field back.
- VisitPayload.ParseVisitData: derives free-text keys with the as-written `DeriveQrCode`, so the collision under Findings carries through to the ledger and the screen. `DeriveQrCodeUnique` is the corrected derivation, proved injective on its own.
- Concurrency of the whole-blob read-modify-write is not modelled. The model is sequential.
- The camera, permissions, photo capture, `setTimeout` delays, alerts, the `scanned` re-entry flag, `finishProcess`, `resetForm`, React state and all rendering are left out. Photos are optional URIs given to `CanConfirm`.
- ScanQrScreen.HandleBarCodeScanned: uses the corrected `RegisterQrScan` (see Findings), not the as-written one.
- `Api.js`, `Storage.js` and every other screen are REST calls and forms with no state machine of their own, and are not part of this model.

## Findings

| source | as written | input that shows it | evidently intended | confidence | as-written member | corrected member |
|---|---|---|---|---|---|---|
| src/config/QrScanData.ts:44-92 | `registerQrScan` reads the ledger through `getQrScans`, which catches a failed read and returns `{}`. The scan is then recorded in an empty ledger, and the write replaces the stored ledger. | Stored `{a: count 2 completed, b: count 1 in_progress}`; a scan of `a` whose read fails and whose write succeeds. Afterwards the slot holds only `{a: count 1 in_progress}`, so `a` went from 2 back to 1 and `b` is lost. | A storage failure during the scan answers `{status: "error", scanCount: 0}` and leaves the stored ledger unchanged. Counts then never decrease and other keys are never touched. | medium, not executed | QrScanData.RegisterQrScanAsWritten, with the witness QrScanData.AsWrittenReadFailureLosesLedger | QrScanData.RegisterQrScan, with QrScanData.ScanCountMonotoneAndBounded |
| src/screens/guard/qr/ScanQrScreen.jsx:81-82 | The comment promises a unique QR code, but the key joins house and visitor with '-', which may also occur inside either part. | House "1-2" with visitor "a" and house "1" with visitor "2-a" both get "1-2-a". Once the first visit is completed, scanning the second shows the already-processed alert and it is never registered (lines 108-114). | Different visits get different keys, for example by escaping '-' inside the house part and closing it with a marker. | medium, not executed | VisitPayload.DeriveQrCode, with the witnesses VisitPayload.DeriveQrCodeSeparatorCollision and VisitPayload.DeriveQrCodeCollides | VisitPayload.DeriveQrCodeUnique, with VisitPayload.DeriveQrCodeUniqueInjective and VisitPayload.DeriveQrCodeUniqueSeparates |
