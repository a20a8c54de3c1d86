/**
 * The QR issue/redeem handlers of the backend controller (`generateQR`, `scanQR`,
 * `getQRDetails`, `downloadQR`) over the two tables they touch: users by id, and QR records
 * by owning user. Each user has at most one QR record; `generateQR` upserts it with a fresh
 * code, and `scanQR` redeems it once, before it expires.
 *
 * The database is the class `QrStore`; what each handler does to it is stated by a ghost
 * specification function on a `Tables` value (`GenerateSpec`, `ScanSpec`, `DetailsSpec`,
 * `DownloadSpec`), and the lemmas at the end prove the handlers' promises about those.
 * The clock (`Date.now()`, in milliseconds), the random bytes of the code (four in the
 * handler) and the SHA-256 function are parameters.
 */
module QrController {
  import opened Wrappers
  import opened JsText

  type UserId = int

  datatype Role = Emergency | Full

  /** A row of the user table, with the fields the handlers read. */
  datatype User = User(id: UserId, name: string, blood: string, phone: string, role: Role)

  /** The `encrypted` column: in spite of its name, the plain pair of code and expiry. */
  datatype ExpiryClaim = ExpiryClaim(qrCodeId: string, expiresAt: nat)

  /** A row of the QR table. `data` is the snapshot of the owner taken when the code was issued. */
  datatype QrRecord = QrRecord(
    userId: UserId,
    qrCodeId: string,
    data: User,
    encrypted: ExpiryClaim,
    hash: string,
    expiresAt: nat,
    isActive: bool,
    scanned: bool,
    createdAt: nat)

  /** The contents of the two tables. */
  datatype Tables = Tables(users: map<UserId, User>, qrs: map<UserId, QrRecord>)

  /** The `userId` member of the request body as JSON delivers it: missing, a number or a string. */
  datatype UserIdField = Absent | Number(n: int) | Text(s: string)

  /** The handlers' error responses. */
  datatype QrError =
    | UserIdRequired
    | UserNotFound
    | QrNotFound
    | QrExpired
    | AlreadyScanned
    | InternalError

  /** The status code each error response is sent with. */
  function HttpStatus(e: QrError): int
  {
    match e
    case UserIdRequired => 400
    case QrExpired => 400
    case AlreadyScanned => 400
    case UserNotFound => 404
    case QrNotFound => 404
    case InternalError => 500
  }

  datatype Outcome<T> = Ok(value: T) | Err(error: QrError)

  /** The body of a successful `generateQR` response (the rendered image left aside). */
  datatype Issued = Issued(qrCodeId: string, qrContent: string, user: User, expiresAt: nat)

  /** The body of a successful `scanQR` response. */
  datatype PatientInfo = PatientInfo(name: string, blood: string, phone: string, role: Role)
  datatype QrInfo = QrInfo(qrCodeId: string, generated: nat, expires: nat, isActive: bool)
  datatype ScanView = ScanView(scannedAt: nat, user: PatientInfo, qrInfo: QrInfo)

  /** The body of a successful `getQRDetails` response. */
  datatype QrSummary = QrSummary(qrCodeId: string, isActive: bool, scanned: bool, createdAt: nat, expiresAt: nat)
  datatype Contact = Contact(id: UserId, name: string, blood: string, phone: string)
  datatype Details = Details(qr: QrSummary, user: Contact)

  /** What `downloadQR` sends: the text the PNG encodes and the attachment's file name. */
  datatype Download = Download(content: string, fileName: string)

  /** A code is valid for 24 hours after it is issued. */
  const DAY_MS: nat := 24 * 60 * 60 * 1000

  const SCAN_URL_PREFIX: string := "http://localhost:3000/api/qr/scan/"

  /** `QR-${Date.now()}-${randomBytes(4).toString('hex')}`. */
  function QrCodeId(now: nat, random: seq<byte>): string
  {
    "QR-" + Decimal(now) + "-" + Hex(random)
  }

  /** The URL a phone opens when it reads the code. */
  function ScanUrl(code: string): string
  {
    SCAN_URL_PREFIX + code
  }

  function DownloadName(code: string): string
  {
    "qr-" + code + ".png"
  }

  /** `!userId` in JavaScript: missing, the number 0 or the empty string. */
  predicate IsFalsy(field: UserIdField)
  {
    field.Absent? || (field.Number? && field.n == 0) || (field.Text? && field.s == "")
  }

  /** `parseInt(userId)`: a number is converted to its decimal string first. `None` is `NaN`. */
  function ParseUserId(field: UserIdField): Option<int>
  {
    match field
    case Absent => None
    case Number(n) => ParseInt(IntToString(n))
    case Text(s) => ParseInt(s)
  }

  /** The patient fields `scanQR` reports, read from a user row. */
  function InfoOf(u: User): PatientInfo
  {
    PatientInfo(u.name, u.blood, u.phone, u.role)
  }

  /**
   * What the database guarantees: users are stored under their own id, every QR record
   * belongs to an existing user and is stored under that user's id (`userId` is unique),
   * and no two records share a code (`qrCodeId` is unique).
   */
  ghost predicate Consistent(t: Tables)
  {
    && (forall id :: id in t.users ==> t.users[id].id == id)
    && (forall u :: u in t.qrs ==> u in t.users && t.qrs[u].userId == u)
    && (forall u, v :: u in t.qrs && v in t.qrs && t.qrs[u].qrCodeId == t.qrs[v].qrCodeId ==> u == v)
  }

  /** `findUnique({ where: { qrCodeId } })`: the owner of the record holding `code`, if any. */
  ghost function Lookup(qrs: map<UserId, QrRecord>, code: string): (r: Option<UserId>)
    ensures r.Some? ==> r.value in qrs && qrs[r.value].qrCodeId == code
    ensures r.None? ==> forall u :: u in qrs ==> qrs[u].qrCodeId != code
  {
    if exists u :: u in qrs && qrs[u].qrCodeId == code then
      Some(var u :| u in qrs && qrs[u].qrCodeId == code; u)
    else None
  }

  /** With codes unique, the lookup finds the one record holding the code. */
  lemma LookupFinds(t: Tables, code: string, u: UserId)
    requires Consistent(t)
    requires u in t.qrs && t.qrs[u].qrCodeId == code
    ensures Lookup(t.qrs, code) == Some(u)
  {
  }

  lemma HasElement(s: set<UserId>)
    requires |s| > 0
    ensures exists u :: u in s
  {
    if forall u :: u !in s {
      assert false;
    }
  }

  /**
   * Upserting a record for an existing user keeps the tables consistent, provided no other
   * user's record already holds the new code.
   */
  lemma UpsertKeepsConsistent(t: Tables, uid: UserId, record: QrRecord)
    requires Consistent(t)
    requires uid in t.users && record.userId == uid
    requires Lookup(t.qrs, record.qrCodeId) in {None, Some(uid)}
    ensures Consistent(t.(qrs := t.qrs[uid := record]))
  {
  }

  /**
   * `generateQR`: check the id, find the user, build a fresh code expiring 24 hours later,
   * and upsert the user's record. An upsert whose code is already held by another user's
   * record breaks the unique constraint and fails like any other database error (500).
   * The update branch of the upsert leaves `createdAt` as it was.
   */
  ghost function GenerateSpec(t: Tables, field: UserIdField, now: nat, random: seq<byte>,
                              sha256: string -> string): (Tables, Outcome<Issued>)
  {
    if IsFalsy(field) then (t, Err(UserIdRequired))
    else match ParseUserId(field)
      case None => (t, Err(InternalError))
      case Some(uid) =>
        if uid !in t.users then (t, Err(UserNotFound))
        else
          var code := QrCodeId(now, random);
          var holder := Lookup(t.qrs, code);
          if holder.Some? && holder.value != uid then (t, Err(InternalError))
          else
            var user := t.users[uid];
            var expiresAt := now + DAY_MS;
            var createdAt := if uid in t.qrs then t.qrs[uid].createdAt else now;
            var record := QrRecord(uid, code, user, ExpiryClaim(code, expiresAt), sha256(code),
                                   expiresAt, true, false, createdAt);
            (t.(qrs := t.qrs[uid := record]), Ok(Issued(code, ScanUrl(code), user, expiresAt)))
  }

  /** The success branch of `GenerateSpec`, spelled out for the method that follows it. */
  lemma GenerateSpecSucceeds(t: Tables, field: UserIdField, now: nat, random: seq<byte>,
                             sha256: string -> string, uid: UserId, record: QrRecord)
    requires !IsFalsy(field) && ParseUserId(field) == Some(uid) && uid in t.users
    requires Lookup(t.qrs, QrCodeId(now, random)) in {None, Some(uid)}
    requires record == QrRecord(uid, QrCodeId(now, random), t.users[uid],
                                ExpiryClaim(QrCodeId(now, random), now + DAY_MS),
                                sha256(QrCodeId(now, random)), now + DAY_MS, true, false,
                                if uid in t.qrs then t.qrs[uid].createdAt else now)
    ensures GenerateSpec(t, field, now, random, sha256) ==
      (t.(qrs := t.qrs[uid := record]),
       Ok(Issued(QrCodeId(now, random), ScanUrl(QrCodeId(now, random)), t.users[uid], now + DAY_MS)))
  {
  }

  /** `generateQR` succeeds only for an existing user and a code no other user holds. */
  lemma GenerateOkConditions(t: Tables, field: UserIdField, now: nat, random: seq<byte>,
                             sha256: string -> string, uid: UserId)
    requires ParseUserId(field) == Some(uid)
    requires GenerateSpec(t, field, now, random, sha256).1.Ok?
    ensures !IsFalsy(field) && uid in t.users
    ensures Lookup(t.qrs, QrCodeId(now, random)) in {None, Some(uid)}
  {
  }

  /**
   * `scanQR`: an unknown code, then an expired one (expiry strictly before now), then an
   * already-scanned one are refused; otherwise the record is marked scanned and the owner's
   * current user row is reported.
   */
  ghost function ScanSpec(t: Tables, code: string, now: nat): (Tables, Outcome<ScanView>)
    requires Consistent(t)
  {
    match Lookup(t.qrs, code)
    case None => (t, Err(QrNotFound))
    case Some(u) =>
      var qr := t.qrs[u];
      if qr.expiresAt < now then (t, Err(QrExpired))
      else if qr.scanned then (t, Err(AlreadyScanned))
      else
        var info := QrInfo(code, qr.createdAt, qr.expiresAt, qr.isActive);
        (t.(qrs := t.qrs[u := qr.(scanned := true)]),
         Ok(ScanView(now, InfoOf(t.users[qr.userId]), info)))
  }

  /** `getQRDetails`: the record and its owner's contact fields, whatever their state. */
  ghost function DetailsSpec(t: Tables, code: string): Outcome<Details>
    requires Consistent(t)
  {
    match Lookup(t.qrs, code)
    case None => Err(QrNotFound)
    case Some(u) =>
      var qr := t.qrs[u];
      var owner := t.users[qr.userId];
      Ok(Details(QrSummary(qr.qrCodeId, qr.isActive, qr.scanned, qr.createdAt, qr.expiresAt),
                 Contact(owner.id, owner.name, owner.blood, owner.phone)))
  }

  /** `downloadQR`: the scan URL of an existing code, as a PNG attachment. */
  ghost function DownloadSpec(t: Tables, code: string): Outcome<Download>
  {
    match Lookup(t.qrs, code)
    case None => Err(QrNotFound)
    case Some(_) => Ok(Download(ScanUrl(code), DownloadName(code)))
  }

  /** A code split back into its parts: the timestamp digits after `QR-`, and what follows the next dash. */
  lemma QrCodeIdParts(now: nat, random: seq<byte>)
    ensures var code := QrCodeId(now, random);
      var stamp := DigitPrefix(code[3..], 10);
      && stamp == Decimal(now)
      && code[4 + |stamp|..] == Hex(random)
  {
    var d := Decimal(now);
    var code := QrCodeId(now, random);
    assert code[3..] == d + "-" + Hex(random);
    DigitPrefixStopsAtDash(d, Hex(random));
    assert code[4 + |d|..] == Hex(random);
  }

  /** Codes made at different milliseconds or from different random bytes are different. */
  lemma QrCodeIdInjective(n1: nat, r1: seq<byte>, n2: nat, r2: seq<byte>)
    requires QrCodeId(n1, r1) == QrCodeId(n2, r2)
    ensures n1 == n2 && r1 == r2
  {
    QrCodeIdParts(n1, r1);
    QrCodeIdParts(n2, r2);
    DecimalInjective(n1, n2);
    HexInjective(r1, r2);
  }

  /** The longest run of digits at the front of `d + "-" + rest` is `d` itself. */
  lemma {:induction false} DigitPrefixStopsAtDash(d: string, rest: string)
    requires forall i :: 0 <= i < |d| ==> IsDigitIn(d[i], 10)
    ensures DigitPrefix(d + "-" + rest, 10) == d
  {
    if d != [] {
      assert (d + "-" + rest)[1..] == d[1..] + "-" + rest;
      DigitPrefixStopsAtDash(d[1..], rest);
    }
  }

  /** `parseInt` reads back a user id sent as a non-zero JSON number or as its decimal string. */
  lemma ParseUserIdOfId(id: int)
    ensures id != 0 ==> !IsFalsy(Number(id)) && ParseUserId(Number(id)) == Some(id)
    ensures !IsFalsy(Text(IntToString(id))) && ParseUserId(Text(IntToString(id))) == Some(id)
  {
    ParseIntOfString(id);
    assert IntToString(id) != [];
  }

  /**
   * `generateQR` fails, leaving both tables as they were, exactly when the id is falsy (400),
   * does not parse (500), names no user (404), or yields a code another user's record holds (500).
   */
  lemma GenerateFailures(t: Tables, field: UserIdField, now: nat, random: seq<byte>, sha256: string -> string)
    ensures var (t', r) := GenerateSpec(t, field, now, random, sha256);
      && (r.Err? ==> t' == t)
      && (r == Err(UserIdRequired) <==> IsFalsy(field))
      && (r == Err(UserNotFound) <==>
            !IsFalsy(field) && ParseUserId(field).Some? && ParseUserId(field).value !in t.users)
      && (r == Err(InternalError) <==>
            !IsFalsy(field) &&
            (ParseUserId(field).None? ||
             (ParseUserId(field).value in t.users &&
              Lookup(t.qrs, QrCodeId(now, random)).Some? &&
              Lookup(t.qrs, QrCodeId(now, random)).value != ParseUserId(field).value)))
  {
  }

  /**
   * The status of a failed `generateQR`: 400 exactly for a falsy id, 404 exactly for an id that
   * names no user, and 500 for every other failure.
   */
  lemma GenerateStatus(t: Tables, field: UserIdField, now: nat, random: seq<byte>, sha256: string -> string)
    ensures var r := GenerateSpec(t, field, now, random, sha256).1;
      && (r.Err? && HttpStatus(r.error) == 400 <==> IsFalsy(field))
      && (r.Err? && HttpStatus(r.error) == 404 <==>
            !IsFalsy(field) && ParseUserId(field).Some? && ParseUserId(field).value !in t.users)
      && (r.Err? ==> HttpStatus(r.error) in {400, 404, 500})
  {
    GenerateFailures(t, field, now, random, sha256);
    var r := GenerateSpec(t, field, now, random, sha256).1;
    assert r.Err? ==> r.error in {UserIdRequired, UserNotFound, InternalError};
  }

  /**
   * A successful `generateQR` for user `uid` replaces that user's record, and only it: the
   * users and every other record stay as they were, and the reply carries the new code, its
   * scan URL, the user and the expiry 24 hours after `now`.
   */
  lemma GenerateIssues(t: Tables, field: UserIdField, now: nat, random: seq<byte>,
                       sha256: string -> string, uid: UserId)
    requires ParseUserId(field) == Some(uid)
    requires GenerateSpec(t, field, now, random, sha256).1.Ok?
    ensures var (t', r) := GenerateSpec(t, field, now, random, sha256);
      var code := QrCodeId(now, random);
      && r == Ok(Issued(code, ScanUrl(code), t.users[uid], now + DAY_MS))
      && t'.users == t.users
      && t'.qrs.Keys == t.qrs.Keys + {uid}
      && (forall v :: v in t.qrs && v != uid ==> t'.qrs[v] == t.qrs[v])
  {
    var record := GenerateRecordFields(t, field, now, random, sha256, uid);
    assert t.qrs[uid := record].Keys == t.qrs.Keys + {uid};
  }

  /**
   * The record a successful `generateQR` stores for user `uid` (returned as `record`): the new
   * code, expiry 24 hours after `now`, active and not scanned, a snapshot of the user, the
   * code's digest and the expiry claim, and the creation time of an earlier record if there
   * was one.
   */
  lemma GenerateRecordFields(t: Tables, field: UserIdField, now: nat, random: seq<byte>,
                             sha256: string -> string, uid: UserId) returns (record: QrRecord)
    requires ParseUserId(field) == Some(uid)
    requires GenerateSpec(t, field, now, random, sha256).1.Ok?
    ensures uid in t.users
    ensures GenerateSpec(t, field, now, random, sha256).0 == t.(qrs := t.qrs[uid := record])
    ensures var code := QrCodeId(now, random);
      && record.userId == uid
      && record.qrCodeId == code
      && record.expiresAt == now + DAY_MS
      && record.isActive && !record.scanned
      && record.data == t.users[uid]
      && record.hash == sha256(code)
      && record.encrypted == ExpiryClaim(code, now + DAY_MS)
      && record.createdAt == (if uid in t.qrs then t.qrs[uid].createdAt else now)
  {
    var code := QrCodeId(now, random);
    GenerateOkConditions(t, field, now, random, sha256, uid);
    record := QrRecord(uid, code, t.users[uid], ExpiryClaim(code, now + DAY_MS), sha256(code),
                       now + DAY_MS, true, false,
                       if uid in t.qrs then t.qrs[uid].createdAt else now);
    GenerateSpecSucceeds(t, field, now, random, sha256, uid, record);
  }

  /** `generateQR` keeps the tables consistent: still at most one record per user and per code. */
  lemma GenerateKeepsConsistent(t: Tables, field: UserIdField, now: nat, random: seq<byte>,
                                sha256: string -> string)
    requires Consistent(t)
    ensures Consistent(GenerateSpec(t, field, now, random, sha256).0)
  {
    var (t', r) := GenerateSpec(t, field, now, random, sha256);
    if r.Ok? {
      var uid := ParseUserId(field).value;
      UpsertKeepsConsistent(t, uid, t'.qrs[uid]);
    }
  }

  /**
   * Regenerating a user's code revokes the previous one: afterwards no record holds the old
   * code, so scanning, inspecting or downloading it fails with not-found.
   */
  lemma RegenerateRevokesOldCode(t: Tables, field: UserIdField, now: nat, random: seq<byte>,
                                 sha256: string -> string, uid: UserId, later: nat)
    requires Consistent(t)
    requires ParseUserId(field) == Some(uid) && uid in t.qrs
    requires GenerateSpec(t, field, now, random, sha256).1.Ok?
    requires QrCodeId(now, random) != t.qrs[uid].qrCodeId
    ensures var t' := GenerateSpec(t, field, now, random, sha256).0;
      var old_code := t.qrs[uid].qrCodeId;
      && Consistent(t')
      && Lookup(t'.qrs, old_code) == None
      && ScanSpec(t', old_code, later) == (t', Err(QrNotFound))
      && DetailsSpec(t', old_code) == Err(QrNotFound)
      && DownloadSpec(t', old_code) == Err(QrNotFound)
  {
    var t' := GenerateSpec(t, field, now, random, sha256).0;
    GenerateKeepsConsistent(t, field, now, random, sha256);
    var old_code := t.qrs[uid].qrCodeId;
    forall v | v in t'.qrs ensures t'.qrs[v].qrCodeId != old_code {
      if v != uid {
        assert t'.qrs[v] == t.qrs[v];
      }
    }
  }

  /**
   * `scanQR` checks in a fixed order and every refusal leaves the tables unchanged: an unknown
   * code is not found; a known one is expired when its expiry is strictly before `now`
   * (a scan at the expiry instant itself passes), then refused when already scanned;
   * otherwise it succeeds.
   */
  lemma ScanOutcomes(t: Tables, code: string, now: nat)
    requires Consistent(t)
    ensures var (t', r) := ScanSpec(t, code, now);
      var found := Lookup(t.qrs, code);
      && (r.Err? ==> t' == t)
      && (r == Err(QrNotFound) <==> found.None?)
      && (r == Err(QrExpired) <==> found.Some? && t.qrs[found.value].expiresAt < now)
      && (r == Err(AlreadyScanned) <==>
            found.Some? && now <= t.qrs[found.value].expiresAt && t.qrs[found.value].scanned)
      && (r.Ok? <==>
            found.Some? && now <= t.qrs[found.value].expiresAt && !t.qrs[found.value].scanned)
      && (r.Err? && HttpStatus(r.error) == 404 <==> found.None?)
      && (r.Err? && HttpStatus(r.error) == 400 <==>
            found.Some? && (t.qrs[found.value].expiresAt < now || t.qrs[found.value].scanned))
  {
  }

  /**
   * A successful scan of the record owned by `u` marks that one record scanned and changes
   * nothing else; it reports the owner's current user row, whatever snapshot the record
   * holds, along with the code, its creation and expiry times and the active flag.
   */
  lemma ScanRedeems(t: Tables, code: string, now: nat, u: UserId)
    requires Consistent(t)
    requires u in t.qrs && t.qrs[u].qrCodeId == code
    requires ScanSpec(t, code, now).1.Ok?
    ensures var (t', r) := ScanSpec(t, code, now);
      var qr := t.qrs[u];
      && t'.users == t.users
      && t'.qrs == t.qrs[u := qr.(scanned := true)]
      && !qr.scanned && now <= qr.expiresAt
      && r.value.user == InfoOf(t.users[u])
      && r.value.qrInfo == QrInfo(code, qr.createdAt, qr.expiresAt, qr.isActive)
      && r.value.scannedAt == now
  {
    LookupFinds(t, code, u);
  }

  /** Scanning keeps the tables consistent. */
  lemma ScanKeepsConsistent(t: Tables, code: string, now: nat)
    requires Consistent(t)
    ensures Consistent(ScanSpec(t, code, now).0)
  {
  }

  /**
   * A code is redeemed at most once: after a successful scan, every later scan of the same
   * code fails, and with `AlreadyScanned` as long as the code has not expired.
   */
  lemma ScanTwiceFails(t: Tables, code: string, now: nat, later: nat)
    requires Consistent(t)
    requires ScanSpec(t, code, now).1.Ok?
    ensures var t' := ScanSpec(t, code, now).0;
      var u := Lookup(t.qrs, code).value;
      && Consistent(t')
      && ScanSpec(t', code, later).1.Err?
      && (later <= t.qrs[u].expiresAt ==> ScanSpec(t', code, later) == (t', Err(AlreadyScanned)))
  {
    var t' := ScanSpec(t, code, now).0;
    var u := Lookup(t.qrs, code).value;
    ScanKeepsConsistent(t, code, now);
    LookupFinds(t', code, u);
  }

  /**
   * A freshly issued code is served: its record is found, the details show it active, not
   * scanned and expiring 24 hours after issue, and the download encodes exactly the URL
   * that the issue returned.
   */
  lemma IssuedCodeIsServed(t: Tables, field: UserIdField, now: nat, random: seq<byte>,
                           sha256: string -> string, uid: UserId)
    requires Consistent(t)
    requires ParseUserId(field) == Some(uid)
    requires GenerateSpec(t, field, now, random, sha256).1.Ok?
    ensures var (t1, issued) := GenerateSpec(t, field, now, random, sha256);
      var code := issued.value.qrCodeId;
      && Consistent(t1)
      && Lookup(t1.qrs, code) == Some(uid)
      && DownloadSpec(t1, code) == Ok(Download(issued.value.qrContent, DownloadName(code)))
      && DetailsSpec(t1, code).Ok?
      && DetailsSpec(t1, code).value.qr == QrSummary(code, true, false, t1.qrs[uid].createdAt, now + DAY_MS)
  {
    var (t1, issued) := GenerateSpec(t, field, now, random, sha256);
    GenerateKeepsConsistent(t, field, now, random, sha256);
    LookupFinds(t1, issued.value.qrCodeId, uid);
  }

  /** The replies to two scans of one code in a row, at `first` and then at `second`. */
  ghost function ScanTwice(t: Tables, code: string, first: nat, second: nat)
    : (Outcome<ScanView>, Outcome<ScanView>)
    requires Consistent(t)
  {
    ScanKeepsConsistent(t, code, first);
    var (t2, r1) := ScanSpec(t, code, first);
    (r1, ScanSpec(t2, code, second).1)
  }

  /**
   * An unscanned code scans successfully at any time up to its expiry, reporting the owner's
   * row, and cannot be scanned a second time; after the expiry it is refused as expired.
   */
  lemma UnscannedCodeScansOnce(t: Tables, code: string, uid: UserId, later: nat, again: nat)
    requires Consistent(t)
    requires uid in t.qrs && t.qrs[uid].qrCodeId == code && !t.qrs[uid].scanned
    ensures later > t.qrs[uid].expiresAt ==> ScanSpec(t, code, later) == (t, Err(QrExpired))
    ensures later <= t.qrs[uid].expiresAt ==>
      && ScanTwice(t, code, later, again).0.Ok?
      && ScanTwice(t, code, later, again).0.value.user == InfoOf(t.users[uid])
      && (again <= t.qrs[uid].expiresAt ==> ScanTwice(t, code, later, again).1 == Err(AlreadyScanned))
  {
    LookupFinds(t, code, uid);
    if later <= t.qrs[uid].expiresAt {
      ScanTwiceFails(t, code, later, again);
    }
  }

  /**
   * The life of one code: issued at `now` as `issued` with tables `t1`, it scans successfully
   * at any time up to 24 hours later, reporting the user's row, and cannot be scanned a second
   * time; after that it is refused as expired.
   */
  lemma IssueThenScan(t: Tables, field: UserIdField, now: nat, random: seq<byte>,
                      sha256: string -> string, uid: UserId, t1: Tables, issued: Issued,
                      later: nat, again: nat)
    requires Consistent(t)
    requires ParseUserId(field) == Some(uid)
    requires GenerateSpec(t, field, now, random, sha256) == (t1, Ok(issued))
    ensures Consistent(t1)
    ensures later > now + DAY_MS ==> ScanSpec(t1, issued.qrCodeId, later) == (t1, Err(QrExpired))
    ensures later <= now + DAY_MS ==>
      && ScanTwice(t1, issued.qrCodeId, later, again).0.Ok?
      && ScanTwice(t1, issued.qrCodeId, later, again).0.value.user == InfoOf(t.users[uid])
      && (again <= now + DAY_MS ==> ScanTwice(t1, issued.qrCodeId, later, again).1 == Err(AlreadyScanned))
  {
    var record := GenerateRecordFields(t, field, now, random, sha256, uid);
    GenerateIssues(t, field, now, random, sha256, uid);
    GenerateKeepsConsistent(t, field, now, random, sha256);
    UnscannedCodeScansOnce(t1, issued.qrCodeId, uid, later, again);
  }

  /** The two tables behind the handlers, updated in place as the database is. */
  class QrStore {
    var users: map<UserId, User>
    var qrs: map<UserId, QrRecord>

    ghost function State(): Tables
      reads this
    {
      Tables(users, qrs)
    }

    ghost predicate Valid()
      reads this
    {
      Consistent(State())
    }

    constructor (initialUsers: map<UserId, User>)
      requires forall id :: id in initialUsers ==> initialUsers[id].id == id
      ensures Valid()
      ensures users == initialUsers && qrs == map[]
    {
      users := initialUsers;
      qrs := map[];
    }

    /** The owner of the record that holds `code`, found by visiting the records one by one. */
    method FindByCode(code: string) returns (r: Option<UserId>)
      requires Valid()
      ensures r.Some? ==> r.value in qrs && qrs[r.value].qrCodeId == code
      ensures r.None? ==> forall u :: u in qrs ==> qrs[u].qrCodeId != code
      ensures r == Lookup(qrs, code)
    {
      var pending := qrs.Keys;
      while |pending| > 0
        invariant pending <= qrs.Keys
        invariant forall u :: u in qrs && u !in pending ==> qrs[u].qrCodeId != code
        decreases pending
      {
        HasElement(pending);
        var u :| u in pending;
        if qrs[u].qrCodeId == code {
          LookupFinds(State(), code, u);
          return Some(u);
        }
        pending := pending - {u};
      }
      return None;
    }

    method GenerateQr(field: UserIdField, now: nat, random: seq<byte>, sha256: string -> string)
      returns (r: Outcome<Issued>)
      requires Valid()
      modifies this
      ensures Valid()
      ensures (State(), r) == GenerateSpec(old(State()), field, now, random, sha256)
    {
      if IsFalsy(field) {
        return Err(UserIdRequired);
      }
      var parsed := ParseUserId(field);
      if parsed.None? {
        return Err(InternalError);
      }
      var uid := parsed.value;
      if uid !in users {
        return Err(UserNotFound);
      }
      var user := users[uid];
      var code := QrCodeId(now, random);
      var expiresAt := now + DAY_MS;
      var qrContent := ScanUrl(code);
      var holder := FindByCode(code);
      if holder.Some? && holder.value != uid {
        return Err(InternalError);
      }
      var createdAt := if uid in qrs then qrs[uid].createdAt else now;
      var record := QrRecord(uid, code, user, ExpiryClaim(code, expiresAt), sha256(code),
                             expiresAt, true, false, createdAt);
      UpsertKeepsConsistent(State(), uid, record);
      GenerateSpecSucceeds(State(), field, now, random, sha256, uid, record);
      qrs := qrs[uid := record];
      r := Ok(Issued(code, qrContent, user, expiresAt));
    }

    method ScanQr(code: string, now: nat) returns (r: Outcome<ScanView>)
      requires Valid()
      modifies this
      ensures Valid()
      ensures (State(), r) == ScanSpec(old(State()), code, now)
    {
      var holder := FindByCode(code);
      if holder.None? {
        return Err(QrNotFound);
      }
      var qr := qrs[holder.value];
      if qr.expiresAt < now {
        return Err(QrExpired);
      }
      if qr.scanned {
        return Err(AlreadyScanned);
      }
      qrs := qrs[holder.value := qr.(scanned := true)];
      var owner := users[qr.userId];
      r := Ok(ScanView(now, InfoOf(owner), QrInfo(code, qr.createdAt, qr.expiresAt, qr.isActive)));
    }

    method GetQrDetails(code: string) returns (r: Outcome<Details>)
      requires Valid()
      ensures r == DetailsSpec(State(), code)
    {
      var holder := FindByCode(code);
      if holder.None? {
        return Err(QrNotFound);
      }
      var qr := qrs[holder.value];
      var owner := users[qr.userId];
      r := Ok(Details(QrSummary(qr.qrCodeId, qr.isActive, qr.scanned, qr.createdAt, qr.expiresAt),
                      Contact(owner.id, owner.name, owner.blood, owner.phone)));
    }

    method DownloadQr(code: string) returns (r: Outcome<Download>)
      requires Valid()
      ensures r == DownloadSpec(State(), code)
    {
      var holder := FindByCode(code);
      if holder.None? {
        return Err(QrNotFound);
      }
      r := Ok(Download(ScanUrl(code), DownloadName(code)));
    }
  }
}
