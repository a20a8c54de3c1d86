# Emergency medical QR codes — a Dafny model

The system issues one short-lived QR code per patient. A code is a string of the form
`QR-<milliseconds>-<8 hex digits>`, and its picture encodes a scan URL. A responder who
scans the code before it expires gets the patient's name, blood group, phone and role once;
the record is then marked as scanned. Staff create patients with a two-step form, browse them
in a filterable list, and redeem codes from a scanner page that keeps the last five attempts.

This project models the backend's QR controller and the three frontend pieces with logic of
their own:

- `wrappers.dfy` (`Wrappers`): `Option` and the subsequence relation used to state
  "filtered, not reordered".
- `js_text.dfy` (`JsText`): the JavaScript string primitives the core relies on. These are
  `trim` with the ECMAScript whitespace set, `toLowerCase` on ASCII, `includes`, `parseInt`
  (leading whitespace, sign, `0x` prefix, longest digit prefix, `NaN` as `None`), decimal
  rendering of a timestamp and `toString('hex')` of random bytes.
- `qr_controller.dfy` (`QrController`): the two database tables, with their unique keys, as
  the class `QrStore` with map fields.
  - Each handler is a method: `generateQR`, `scanQR`, `getQRDetails` and `downloadQR`.
  - Each method is proved equal to a ghost specification function on a `Tables` value.
  - Lemmas cover the outcomes, the preserved uniqueness invariant, revocation by
    regeneration, single use, and the issue-then-scan life cycle.
- `user_list.dfy` (`UserList`): `filterUsers` and the role counts on the stats cards. The
  filter is proved equal to a one-pass reference selection.
- `qr_scanner.dfy` (`QrScanner`): the scanner page as a class. Its invariant says the visible
  history is the five newest of all attempts.
- `user_form.dfy` (`UserForm`): the form record updates as functions, and the step/submit
  state machine as a class.

The clock, the random bytes and the SHA-256 function are parameters. The backend's reply to
the scanner and to the form is a parameter of the frontend methods.

Behaviour of the code worth noting:

- `scanQR` refuses a code as expired only when `expiresAt < now`
  (backend/src/controller/qrController.js:100), so a scan at the expiry instant itself
  succeeds.
- `scanQR` reports the owner's current user row, read through the record's `user` relation,
  not the `data` snapshot stored in the record (backend/src/controller/qrController.js:121-127).
- `generateQR` always sets the expiry 24 hours after issue
  (backend/src/controller/qrController.js:27). The `expiresAt` that the frontend posts
  (frontend/src/components/GenerateQR.jsx:13-16) is ignored.
- The `encrypted` column holds plain JSON of the code and expiry
  (backend/src/controller/qrController.js:50). It is not encrypted, and no handler in the core
  decrypts it or checks the hash.

## Model

| member | source | states |
|---|---|---|
| JsText.TrimStart | frontend/src/components/QRScanner.jsx:30 | the result is a suffix of the input, everything removed is ECMAScript whitespace, and the result does not start with whitespace |
| JsText.TrimEnd | frontend/src/components/QRScanner.jsx:30 | the result is a prefix of the input, everything removed is whitespace, and the result does not end with whitespace |
| JsText.Trim | frontend/src/components/QRScanner.jsx:30 | definition of `s.trim()` as `TrimEnd` after `TrimStart`; its emptiness test is stated by `TrimEmptyIffAllWhitespace` |
| JsText.TrimEmptyIffAllWhitespace | frontend/src/components/QRScanner.jsx:30 | `trim()` gives the empty (falsy) string exactly when every character is whitespace |
| JsText.ToLower | frontend/src/pages/UserList.jsx:48-50 | same length, each character case-folded on its own |
| JsText.ToLowerIdempotent | frontend/src/pages/UserList.jsx:48-50 | lower-casing twice is lower-casing once, and no capital A-Z is left |
| JsText.Includes | frontend/src/pages/UserList.jsx:48-50 | definition of `s.includes(sub)` as a scan of start positions from the left; `IncludesIffOccurs` states what it decides |
| JsText.IncludesIffOccurs | frontend/src/pages/UserList.jsx:48-50 | `includes` holds exactly when the term occurs at some position |
| JsText.DigitValue | backend/src/controller/qrController.js:16 | a digit character has a value below 16 |
| JsText.DigitCharRoundTrip | backend/src/controller/qrController.js:24 | the digit rendered for a value below 16 reads back as that value |
| JsText.Decimal | backend/src/controller/qrController.js:24 | the rendering of a timestamp is a non-empty string of decimal digits |
| JsText.DecimalValue | backend/src/controller/qrController.js:24 | reading the decimal rendering back gives the number |
| JsText.DecimalInjective | backend/src/controller/qrController.js:24 | different timestamps render differently |
| JsText.DigitPrefix | backend/src/controller/qrController.js:16 | the longest run of digits at the front: a prefix, all digits, and followed by a non-digit or the end |
| JsText.UnsignedDigitsParse | backend/src/controller/qrController.js:16 | a non-empty run of decimal digits parses to its value |
| JsText.DigitPrefixOfDigits | backend/src/controller/qrController.js:16 | the digit run at the front of a string of digits is the whole string |
| JsText.ParseInt | backend/src/controller/qrController.js:16 | definition of `parseInt(s)` without a radix: skip leading whitespace, take one optional sign, read the magnitude, `None` for `NaN`; see `NegativeParse`, `PositiveParse`, `ParseIntOfString` |
| JsText.ParseUnsigned | backend/src/controller/qrController.js:16 | definition of the magnitude `parseInt` reads: radix 16 after `0x`/`0X`, else 10, the value of the longest digit run, `NaN` when it is empty; see `UnsignedDigitsParse` |
| JsText.IntToString | backend/src/controller/qrController.js:16 | definition of `String(k)` for an integer: a minus sign before the decimal digits of a negative number; `ParseIntOfString` reads it back |
| JsText.NegativeParse | backend/src/controller/qrController.js:16 | a minus sign negates the parsed magnitude |
| JsText.PositiveParse | backend/src/controller/qrController.js:16 | an unsigned numeral parses to its magnitude |
| JsText.ParseIntOfString | backend/src/controller/qrController.js:16 | `parseInt` of an integer's decimal string gives that integer back |
| JsText.DigitIsNotBlankOrSign | backend/src/controller/qrController.js:16 | a digit is neither whitespace nor a sign, so `parseInt` does not skip or consume it |
| JsText.Hex | backend/src/controller/qrController.js:24 | `toString('hex')` gives two characters per byte |
| JsText.HexRoundTrip | backend/src/controller/qrController.js:24 | decoding the hex of some bytes gives the same bytes back |
| JsText.HexByteReadsBack | backend/src/controller/qrController.js:24 | the two hex digits of one byte read back as that byte, ahead of the rest |
| JsText.HexInjective | backend/src/controller/qrController.js:24 | different random bytes give different hex |
| QrController.HttpStatus | backend/src/controller/qrController.js:6-208 | definition of the status each error response is sent with: 400 for a missing id, an expired or a scanned code, 404 for an unknown user or code, 500 for a failure; see `GenerateStatus` and `ScanOutcomes` |
| QrController.IsFalsy | backend/src/controller/qrController.js:10 | definition of `!userId`: missing, the number 0 or the empty string; used by `GenerateFailures` and `GenerateStatus` |
| QrController.ParseUserId | backend/src/controller/qrController.js:16 | definition of `parseInt(userId)`: a number is read through its decimal string, a string as it is; see `ParseUserIdOfId` |
| QrController.QrCodeId | backend/src/controller/qrController.js:24 | definition of the code `QR-<Date.now()>-<hex of the random bytes>`; see `QrCodeIdParts` and `QrCodeIdInjective` |
| QrController.ScanUrl | backend/src/controller/qrController.js:39 | definition of the URL the picture encodes (again at line 194), the scan route followed by the code; see `GenerateIssues` and `IssuedCodeIsServed` |
| QrController.DownloadName | backend/src/controller/qrController.js:201 | definition of the attachment file name `qr-<code>.png`; see `IssuedCodeIsServed` |
| QrController.InfoOf | backend/src/controller/qrController.js:121-127 | definition of the patient fields a scan reports (name, blood, phone, role of the user row); see `ScanRedeems` |
| QrController.Lookup | backend/src/controller/qrController.js:90-93 | a found owner holds a record with the code; not found means no record holds it |
| QrController.LookupFinds | backend/src/controller/qrController.js:90-93 | with unique codes, the lookup returns the one record that holds the code |
| QrController.UpsertKeepsConsistent | backend/src/controller/qrController.js:45-66 | an upsert for an existing user keeps one record per user and per code, unless another user already holds the code |
| QrController.GenerateSpec | backend/src/controller/qrController.js:6-82 | definition of `generateQR` on the tables: the four refusals in order, then the upsert and the reply; its outcomes are stated by `GenerateFailures`, `GenerateStatus`, `GenerateOkConditions`, `GenerateIssues`, `GenerateRecordFields` and `GenerateKeepsConsistent` |
| QrController.GenerateSpecSucceeds | backend/src/controller/qrController.js:23-76 | when the id parses to an existing user and no other user holds the code, the issue upserts that user's fresh record and replies with the code, URL, user and expiry |
| QrController.QrCodeIdParts | backend/src/controller/qrController.js:24 | a code splits back into its timestamp digits and its random hex |
| QrController.QrCodeIdInjective | backend/src/controller/qrController.js:24 | codes made at different milliseconds or from different random bytes differ |
| QrController.DigitPrefixStopsAtDash | backend/src/controller/qrController.js:24 | the digit run after `QR-` ends at the dash |
| QrController.ParseUserIdOfId | backend/src/controller/qrController.js:10-17 | a non-zero numeric id, or its decimal string, passes the truthiness check and parses to itself |
| QrController.GenerateFailures | backend/src/controller/qrController.js:6-82 | fails, leaving both tables unchanged, exactly when the id is falsy (400), does not parse (500), names no user (404) or yields a code held by another user (500) |
| QrController.GenerateStatus | backend/src/controller/qrController.js:6-82 | a failure is answered with 400 exactly when the id is falsy, with 404 exactly when it names no user, and with 500 otherwise |
| QrController.GenerateIssues | backend/src/controller/qrController.js:23-76 | on success only the caller's record changes (users and other records as they were), and the reply carries the code, its scan URL, the user and the expiry 24 hours on |
| QrController.GenerateRecordFields | backend/src/controller/qrController.js:24-66 | the record stored on success: the new code, expiry 24 hours on, active and not scanned, the user snapshot, the code's digest and expiry claim, and the earlier record's creation time if any |
| QrController.GenerateOkConditions | backend/src/controller/qrController.js:10-21 | a successful issue had a truthy id naming an existing user and a code no other user holds |
| QrController.GenerateKeepsConsistent | backend/src/controller/qrController.js:45-66 | issuing keeps one record per user and one owner per code |
| QrController.RegenerateRevokesOldCode | backend/src/controller/qrController.js:45-55 | after a regeneration the old code is gone: scan, details and download all answer not-found |
| QrController.ScanSpec | backend/src/controller/qrController.js:85-141 | definition of `scanQR` on the tables: not found, expired, already scanned, else mark the record scanned and report the owner; its outcomes are stated by `ScanOutcomes`, `ScanRedeems`, `ScanKeepsConsistent` and `ScanTwiceFails` |
| QrController.DetailsSpec | backend/src/controller/qrController.js:143-179 | definition of `getQRDetails` on the tables: not found, else the record's summary and the owner's contact; see `IssuedCodeIsServed` and `RegenerateRevokesOldCode` |
| QrController.DownloadSpec | backend/src/controller/qrController.js:181-208 | definition of `downloadQR` on the tables: not found, else the scan URL and the file name; see `IssuedCodeIsServed` and `RegenerateRevokesOldCode` |
| QrController.ScanOutcomes | backend/src/controller/qrController.js:85-141 | the order of the checks (unknown, expired strictly before now, already scanned), each refusal leaving the tables unchanged, and when the scan succeeds; the reply is a 404 exactly for an unknown code and a 400 exactly for an expired or already scanned one |
| QrController.ScanRedeems | backend/src/controller/qrController.js:109-135 | a successful scan sets only that record's scanned flag and reports the owner's current row and the code's times and flag |
| QrController.ScanKeepsConsistent | backend/src/controller/qrController.js:109-113 | scanning keeps the tables consistent |
| QrController.ScanTwiceFails | backend/src/controller/qrController.js:104-113 | a code is redeemed at most once; a second scan before expiry is refused as already scanned |
| QrController.IssuedCodeIsServed | backend/src/controller/qrController.js:143-208 | a freshly issued code is found; its details show it active, unscanned and expiring 24 hours on; the download encodes the URL the issue returned |
| QrController.UnscannedCodeScansOnce | backend/src/controller/qrController.js:99-135 | an unscanned code scans successfully up to its expiry and is refused as already scanned the next time; after the expiry it is refused as expired |
| QrController.IssueThenScan | backend/src/controller/qrController.js:6-141 | a code issued at `now` scans once up to `now` + 24 h, reporting the user, and is refused as expired after that |
| QrController.QrStore.constructor | backend/src/controller/qrController.js:1 | a store holds the given users and no QR records |
| QrController.QrStore.FindByCode | backend/src/controller/qrController.js:90-93 | the record-by-record search returns exactly the lookup's owner |
| QrController.QrStore.GenerateQr | backend/src/controller/qrController.js:6-82 | new tables and reply are those of the issue specification; consistency kept |
| QrController.QrStore.ScanQr | backend/src/controller/qrController.js:85-141 | new tables and reply are those of the scan specification; consistency kept |
| QrController.QrStore.GetQrDetails | backend/src/controller/qrController.js:143-179 | the reply is the details specification; nothing changes |
| QrController.QrStore.DownloadQr | backend/src/controller/qrController.js:181-208 | the reply is the download specification: the scan URL and `qr-<code>.png`, or not-found |
| UserList.MatchesSearch | frontend/src/pages/UserList.jsx:47-51 | definition of the search test: the lower-cased name or blood type contains the lower-cased term, or the phone contains the term; see `SearchIgnoresLetterCase` and `EmptyTermMatchesEveryone` |
| UserList.SearchFilter | frontend/src/pages/UserList.jsx:47-51 | definition of the search `filter`, keeping order; see `FilterUsersIsSelect` |
| UserList.RoleFilter | frontend/src/pages/UserList.jsx:56 | definition of the role `filter`, keeping order; see `RoleFilterDistributes` and `FilterUsersIsSelect` |
| UserList.FilterUsers | frontend/src/pages/UserList.jsx:42-60 | definition of `filterUsers`: the search for a non-empty term, then the role filter unless `'ALL'`; see `FilterUsersIsSelect`, `FilterUsersSelects` and `FilterUsersIdempotent` |
| UserList.FilterUsersIsSelect | frontend/src/pages/UserList.jsx:42-60 | the search filter followed by the role filter keeps exactly the users that pass both tests |
| UserList.RoleFilterDistributes | frontend/src/pages/UserList.jsx:55-57 | the role filter distributes over concatenation |
| UserList.SelectIsSubsequence | frontend/src/pages/UserList.jsx:42-60 | the selection neither adds nor reorders users |
| UserList.SelectMembers | frontend/src/pages/UserList.jsx:42-60 | a user is selected iff it is listed and passes |
| UserList.SelectIdempotent | frontend/src/pages/UserList.jsx:42-60 | selecting from a selection changes nothing |
| UserList.FilterUsersSelects | frontend/src/pages/UserList.jsx:42-60 | the shown list is an order-keeping sub-list of the users (multiset included), holds exactly the passing users, and with a role chosen only users of that role |
| UserList.FilterNothing | frontend/src/pages/UserList.jsx:43-46 | an empty term with all roles shows the whole list |
| UserList.FilterUsersIdempotent | frontend/src/pages/UserList.jsx:42-60 | filtering the shown list again changes nothing |
| UserList.EmptyTermMatchesEveryone | frontend/src/pages/UserList.jsx:46-51 | the empty term matches every user, so the guard does not change the result |
| UserList.SearchIgnoresLetterCase | frontend/src/pages/UserList.jsx:47-51 | users whose name and blood type agree up to letter case, and whose phones are equal, match the same terms |
| UserList.CountRole | frontend/src/pages/UserList.jsx:124-138 | definition of a role card's count, the length of the role filter; see `RoleCountsAddUp` and `RoleCountIsFilterSize` |
| UserList.RoleCountsAddUp | frontend/src/pages/UserList.jsx:111-138 | the emergency and full-access counts add up to the total count |
| UserList.RoleCountIsFilterSize | frontend/src/pages/UserList.jsx:124-138 | a role card counts exactly what the list shows for that role and no search |
| QrScanner.ErrorText | frontend/src/components/QRScanner.jsx:66 | the recorded error is never empty; a non-empty server text is used as is |
| QrScanner.EntryFor | frontend/src/components/QRScanner.jsx:41-67 | definition of the history entry of either branch: the clock as id and time, the id as typed, and the patient's name or the error text; see `EntryReportsServer` and `QrScanner.HandleScan` |
| QrScanner.Pushed | frontend/src/components/QRScanner.jsx:41-50 | the new entry is at index 0, followed by the previous entries in order; at most five in all |
| QrScanner.PushedKeepsRecent | frontend/src/components/QRScanner.jsx:41-69 | pushing onto the five newest attempts gives the five newest attempts of the longer log |
| QrScanner.HistoryIsRecentAttempts | frontend/src/components/QRScanner.jsx:49 | the history has at most five entries; the k-th newest attempt is at index k while k < 5 |
| QrScanner.ServerMessage | backend/src/controller/qrController.js:96-139 | definition of the `error` text the backend sends for each scan refusal; see `EntryReportsServer` |
| QrScanner.EntryReportsServer | frontend/src/components/QRScanner.jsx:37-69 | against the backend's scan, a success records the patient's name and a refusal records the backend's own error text |
| QrScanner.QrScanner.constructor | frontend/src/components/QRScanner.jsx:24-27 | empty field, no card, empty history |
| QrScanner.QrScanner.SetInput | frontend/src/components/QRScanner.jsx:136 | the field takes the typed text; nothing else changes |
| QrScanner.QrScanner.HandleScan | frontend/src/components/QRScanner.jsx:29-73 | blank input (all whitespace) sends nothing and changes nothing; otherwise the id is sent as typed and the attempt heads the history; success shows the card and clears the field; failure hides the card and keeps the field |
| QrScanner.QrScanner.ClearScan | frontend/src/components/QRScanner.jsx:75-77 | the card is hidden; field and history untouched |
| UserForm.FormDataExtensional | frontend/src/components/UserForm.jsx:20-31 | two records are equal iff every member agrees |
| UserForm.SetField | frontend/src/components/UserForm.jsx:94-97 | the named member takes the value and every other member is unchanged |
| UserForm.SetFieldSameValue | frontend/src/components/UserForm.jsx:94-97 | setting a member to its own value changes nothing |
| UserForm.Without | frontend/src/components/UserForm.jsx:91 | no copy of the value is left and every other condition keeps its count |
| UserForm.WithoutIsSubsequence | frontend/src/components/UserForm.jsx:91 | unchecking keeps the other conditions in order |
| UserForm.WithoutAbsent | frontend/src/components/UserForm.jsx:91 | removing an absent condition changes nothing |
| UserForm.WithoutAppended | frontend/src/components/UserForm.jsx:89-91 | removing a value after appending it is removing it from the original list |
| UserForm.WithoutKeepsNoDuplicates | frontend/src/components/UserForm.jsx:91 | removing a condition keeps the list free of duplicates |
| UserForm.ApplyChange | frontend/src/components/UserForm.jsx:83-99 | an input sets exactly its member; checking appends the value at the end; unchecking removes every copy and keeps the rest; the other part of the record is unchanged |
| UserForm.UncheckKeepsOrder | frontend/src/components/UserForm.jsx:91 | after unchecking, the conditions are an order-keeping sub-list of the old ones |
| UserForm.CheckThenUncheck | frontend/src/components/UserForm.jsx:86-92 | checking an unchecked box and unchecking it again restores the record |
| UserForm.ToggleKeepsNoDuplicates | frontend/src/components/UserForm.jsx:86-92 | boxes drawn checked iff listed never cause a condition to be listed twice |
| UserForm.RequiredFilled | frontend/src/components/UserForm.jsx:46 | definition of the gate of `handleSubmit` and of `nextStep` (line 102): name, blood and phone all non-empty; see `UserFormState.NextStep`, `UserFormState.HandleSubmit` and `EmptyFormIsIncomplete` |
| UserForm.EMPTY_FORM | frontend/src/components/UserForm.jsx:20-31 | the initial record, and the reset one at lines 62-73: every text empty except the role `EMERGENCY`, no conditions; see `EmptyFormIsIncomplete` and `UserFormState.HandleSubmit` |
| UserForm.MedicalStepKeepsRequired | frontend/src/components/UserForm.jsx:101-107 | inputs on the medical step cannot empty name, blood or phone, so the submit gate passes there |
| UserForm.EmptyFormIsIncomplete | frontend/src/components/UserForm.jsx:62-73 | the reset record has role `EMERGENCY` and no conditions, and fails the required-field gate |
| UserForm.UserFormState.constructor | frontend/src/components/UserForm.jsx:20-34 | the form starts empty on step 1 |
| UserForm.UserFormState.HandleChange | frontend/src/components/UserForm.jsx:83-99 | the record becomes the event applied to it; the step does not move |
| UserForm.UserFormState.NextStep | frontend/src/components/UserForm.jsx:101-107 | moves to step 2 iff name, phone and blood are filled, otherwise the step stays; the record is unchanged |
| UserForm.UserFormState.PrevStep | frontend/src/components/UserForm.jsx:109-111 | always step 1; the record is unchanged |
| UserForm.UserFormState.HandleSubmit | frontend/src/components/UserForm.jsx:42-81 | sends the record iff name, blood and phone are filled; on creation resets to the empty form on step 1; on refusal keeps record and step |

## Left out

- Prisma and Express are modelled only as two maps and a reply datatype. Routing, JSON
  bodies and the `success` flag are not modelled. Each error carries its status code through
  `HttpStatus`.
- The database schema is not part of this model. The uniqueness of `userId` and `qrCodeId`
  is inferred from the `findUnique` and `upsert` calls. A code collision with another user's
  record is modelled as the database error it would raise (500). `createdAt` is assumed to be
  set only when the upsert creates the record. The record's own row id is not modelled.
- Any other database or network failure, which the source answers with 500 or with a rejected
  promise, is not modelled.
- The QR picture (`QRCode.toDataURL`, `QRCode.toBuffer`) is not modelled. The download is
  modelled as the URL it encodes plus the attachment file name.
- `Date.now()`, `new Date()`, `crypto.randomBytes` and SHA-256 become parameters.
  - `generateQR` reads the clock twice; the model uses one value `now` for both.
  - `QrController.ScanSpec`: `scanQR` reads the clock once for the expiry test and again, after
    the awaited update, for `scannedAt`; the model uses one value `now` for both, so
    `QrController.ScanRedeems` states `scannedAt == now`, the instant of the expiry test.
  - `QrScanner.EntryFor`: `handleScan` reads the clock twice for an entry's `id` and
    `timestamp`; the model uses one value `now` for both.
  - `scanQR` compares with the current time in milliseconds. Date rendering is not modelled:
    no ISO strings and no locale formatting.
- `QrController.ParseUserId`: JSON booleans, fractions and exponents in `userId` are not
  modelled; a number is read through its decimal string. The 32-bit range Prisma imposes on
  an `Int` id is not modelled. When `parseInt` gives `NaN`, the model assumes that Prisma's
  `findUnique({ where: { id: NaN } })` throws, so the handler answers 500.
- `QrController.QrCodeId`: accepts random bytes of any length. The handler draws exactly four,
  which gives eight hex digits. The round-trip and injectivity lemmas hold for every length.
- `JsText.ToLower`: only the ASCII letters are case-folded. Unicode case mapping is not
  modelled.
- The encrypted-payload issue and verify utilities (`encrypt.js`, `decrypt.js`, `hash.js`)
  and `userController.js` are not part of this model; no handler in the core calls them.
- User roles are modelled as the two values the UI offers. A stored role outside them, which
  neither role card would count, is not modelled.
- The frontend's toasts, the `onUserCreated` callback, clipboard copy, `tel:` links and the
  rendering are not modelled. The data fetch of the user list is not modelled: the list is a
  parameter.
- `QrScanner.QrScanner.HandleScan` and `UserForm.UserFormState.HandleSubmit` run each request
  to completion in one step. `loading` is therefore true only inside the method. Concurrent
  scans are not modelled: the Enter key starts a scan even while the button is disabled.
- `QrScanner.QrScanner.HandleScan` sends the id untrimmed and unescaped, as typed. How the
  URL path then reaches the backend is not modelled.
