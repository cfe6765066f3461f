/** The capsule store of database.py: the `files` table (one row per capsule) and the
    `download_tracking` table (one row per capsule and recipient), as in-memory maps.

    The schema declares `ON DELETE CASCADE` from `download_tracking` to `files`, but the
    connection never enables SQLite's foreign-key enforcement, so deleting a `files` row
    leaves its tracking rows behind. The model does the same: `RemoveFileRow` keeps them.

    Each statement block runs inside `with sqlite3.connect(...) as conn`, which commits on
    success and rolls back on an exception; a method therefore either changes the tables
    as a whole or not at all. */
module Store {
  import opened Common
  import opened Text
  import opened Timestamps

  type FileId = string
  type UserId = string

  /** The `allowed_users` column: the JSON text of a list of user ids, the empty text,
      or text that does not decode. */
  datatype AllowedColumn = JsonList(users: seq<UserId>) | EmptyText | BadJson

  /** A `files` row, without its key. */
  datatype FileRow = FileRow(
    filename: string,
    uploadDate: string,
    unlockDate: string,
    expiryDate: string,
    unlocked: bool,
    allowed: AllowedColumn,
    fileSize: int,
    mimeType: string,
    uploaderId: UserId)

  /** A `download_tracking` row, without its key. */
  datatype TrackRow = TrackRow(downloaded: bool, downloadDate: Option<string>)

  /** Both tables. */
  datatype Tables = Tables(files: map<FileId, FileRow>, tracking: map<(FileId, UserId), TrackRow>)

  /** The `file_data` dictionary handed to `add_file`. */
  datatype NewFile = NewFile(
    filename: string,
    unlockDate: string,
    allowedUsers: seq<UserId>,
    fileSize: int,
    mimeType: string,
    uploaderId: UserId)

  /** What `add_file` raises: ValueError from strptime, sqlite3.IntegrityError from a key clash. */
  datatype DbError = DateFormatError | IntegrityError

  /** A row of `get_user_files`: no `allowed_users`, no `uploader_id`. */
  datatype Summary = Summary(
    id: FileId,
    filename: string,
    uploadDate: string,
    unlockDate: string,
    unlocked: bool,
    fileSize: int,
    mimeType: string)

  /** The dictionary `get_file` returns. */
  datatype FileInfo = FileInfo(
    id: FileId,
    filename: string,
    uploadDate: string,
    unlockDate: string,
    unlocked: bool,
    allowedUsers: seq<UserId>,
    fileSize: int,
    mimeType: string,
    uploaderId: UserId)

  /** `get_file`: no row (None), a row whose `allowed_users` raises JSONDecodeError, or the row. */
  datatype Lookup = Absent | Unreadable | Found(info: FileInfo)

  // ---------------------------------------------------------------------------------------
  // Queries

  /** `user_id in json.loads(row['allowed_users'])`, where a row that does not decode is skipped. */
  predicate ListsUser(col: AllowedColumn, user: UserId) {
    col.JsonList? && user in col.users
  }

  function Summarize(id: FileId, row: FileRow): Summary {
    Summary(id, row.filename, row.uploadDate, row.unlockDate, row.unlocked, row.fileSize, row.mimeType)
  }

  /** `get_file`: the row under `id`, with `allowed_users` decoded (empty text reads as no users). */
  function LookupFile(t: Tables, id: FileId): (r: Lookup)
    ensures r.Absent? <==> id !in t.files
    ensures r.Unreadable? <==> id in t.files && t.files[id].allowed.BadJson?
    ensures r.Found? ==> var row := t.files[id];
      && r.info.id == id && r.info.uploaderId == row.uploaderId && r.info.unlockDate == row.unlockDate
      && r.info.unlocked == row.unlocked && r.info.filename == row.filename && r.info.mimeType == row.mimeType
      && r.info.uploadDate == row.uploadDate && r.info.fileSize == row.fileSize
      && (forall u :: u in r.info.allowedUsers <==> ListsUser(row.allowed, u))
  {
    if id !in t.files then Absent
    else
      var row := t.files[id];
      match row.allowed
      case BadJson => Unreadable
      case EmptyText => Found(FileInfo(id, row.filename, row.uploadDate, row.unlockDate, row.unlocked,
                                       [], row.fileSize, row.mimeType, row.uploaderId))
      case JsonList(us) => Found(FileInfo(id, row.filename, row.uploadDate, row.unlockDate, row.unlocked,
                                          us, row.fileSize, row.mimeType, row.uploaderId))
  }

  /** The recipients of capsule f whose tracking row still says `downloaded = 0`. */
  function Pending(t: Tables, f: FileId): set<UserId> {
    set k | k in t.tracking && k.0 == f && !t.tracking[k].downloaded :: k.1
  }

  /** Ids that `check_expired_files` selects: `expiry_date < now OR unlock_date < now`, as text. */
  function ExpiredIds(t: Tables, now: string): set<FileId> {
    set id | id in t.files && (TextLess(t.files[id].expiryDate, now) || TextLess(t.files[id].unlockDate, now))
  }

  // ---------------------------------------------------------------------------------------
  // Updates, as functions of the tables

  /** The tracking rows `add_file` inserts: one per listed user, not yet downloaded. */
  function TrackingRowsFor(id: FileId, users: seq<UserId>): map<(FileId, UserId), TrackRow> {
    map u | u in users :: (id, u) := TrackRow(false, None)
  }

  lemma TrackingRowsForSnoc(id: FileId, users: seq<UserId>, u: UserId)
    ensures TrackingRowsFor(id, users + [u]) == TrackingRowsFor(id, users)[(id, u) := TrackRow(false, None)]
  {
    assert forall v :: v in users + [u] <==> v in users || v == u;
  }

  /** Staging the i-th listed user when it clashes with nothing. */
  lemma StageStep(tracking: map<(FileId, UserId), TrackRow>, id: FileId, users: seq<UserId>, i: nat)
    requires i < |users| && Distinct(users[..i])
    requires (id, users[i]) !in tracking + TrackingRowsFor(id, users[..i])
    ensures Distinct(users[..i + 1]) && (id, users[i]) !in tracking
    ensures (tracking + TrackingRowsFor(id, users[..i]))[(id, users[i]) := TrackRow(false, None)]
         == tracking + TrackingRowsFor(id, users[..i + 1])
  {
    assert users[..i + 1] == users[..i] + [users[i]];
    TrackingRowsForSnoc(id, users[..i], users[i]);
    assert users[i] !in users[..i];
  }

  /** The i-th listed user clashes with an existing tracking row or with an earlier listed user. */
  lemma KeyClashFound(t: Tables, id: FileId, users: seq<UserId>, i: nat)
    requires i < |users|
    requires (id, users[i]) in t.tracking + TrackingRowsFor(id, users[..i])
    ensures !Distinct(users) || exists u :: u in users && (id, u) in t.tracking
  {
    if (id, users[i]) !in t.tracking {
      assert users[i] in users[..i];
      var j :| 0 <= j < i && users[..i][j] == users[i];
      assert users[j] == users[i];
    }
  }

  /** The `files` row `add_file` inserts, with the unlock date already parsed. */
  function NewRow(data: NewFile, unlockAt: DateTime, now: DateTime): FileRow
    requires ValidDateTime(unlockAt) && ValidDateTime(now)
  {
    FileRow(data.filename, FormatStored(now), FormatDate(data.unlockDate), FormatStored(unlockAt),
            false, JsonList(data.allowedUsers), data.fileSize, data.mimeType, data.uploaderId)
  }

  /** An insert `add_file` would make violates a primary key: the capsule id is taken, a user is
      listed twice, or a tracking row for the id and a listed user already exists. */
  predicate KeyClash(t: Tables, id: FileId, users: seq<UserId>) {
    id in t.files || !Distinct(users) || exists u :: u in users && (id, u) in t.tracking
  }

  /** `add_file` at time `now`. */
  function InsertFile(t: Tables, id: FileId, data: NewFile, now: DateTime): Result<Tables, DbError>
    requires ValidDateTime(now)
  {
    match ParseLocal(data.unlockDate)
    case None => Err(DateFormatError)
    case Some(at) =>
      if KeyClash(t, id, data.allowedUsers) then Err(IntegrityError)
      else Ok(Tables(t.files[id := NewRow(data, at, now)], t.tracking + TrackingRowsFor(id, data.allowedUsers)))
  }

  /** `delete_file`: removes the `files` row only; reports whether there was one. */
  function RemoveFileRow(t: Tables, id: FileId): (Tables, bool) {
    (Tables(t.files - {id}, t.tracking), id in t.files)
  }

  /** `check_and_update_download` at time `when`: marks the (f, u) row downloaded unless it is missing
      or already marked; reports whether no row of f is left undownloaded. */
  function MarkDownloaded(t: Tables, f: FileId, u: UserId, when: string): (Tables, bool) {
    var k := (f, u);
    if k !in t.tracking || t.tracking[k].downloaded then (t, false)
    else
      var t' := Tables(t.files, t.tracking[k := TrackRow(true, Some(when))]);
      (t', Pending(t', f) == {})
  }

  /** Deletes the `files` rows and all tracking rows of the given capsules
      (`delete_expired_files`, and the local step of the explicit delete in app.py). */
  function DropCapsules(t: Tables, ids: set<FileId>): Tables {
    Tables(t.files - ids, map k | k in t.tracking && k.0 !in ids :: t.tracking[k])
  }

  // ---------------------------------------------------------------------------------------
  // The invariant kept by the service

  /** A row as the upload handler writes it. */
  predicate WellFormedRow(row: FileRow) {
    && row.allowed.JsonList?
    && row.uploaderId in row.allowed.users
    && Distinct(row.allowed.users)
    && row.expiryDate == row.unlockDate
    && ParseStored(row.unlockDate).Some?
    && ParseStored(row.uploadDate).Some?
  }

  /** Every live capsule is well formed and has exactly one tracking row per recipient; a row is
      marked downloaded exactly when it carries a download date. Tracking rows of deleted
      capsules (orphans) are allowed, since `delete_file` leaves them. */
  ghost predicate Consistent(t: Tables) {
    && (forall id :: id in t.files ==> WellFormedRow(t.files[id]))
    && (forall id, u :: id in t.files && ListsUser(t.files[id].allowed, u) ==> (id, u) in t.tracking)
    && (forall k :: k in t.tracking && k.0 in t.files ==> ListsUser(t.files[k.0].allowed, k.1))
    && (forall k :: k in t.tracking ==> (t.tracking[k].downloaded <==> t.tracking[k].downloadDate.Some?))
  }

  /** add_file raises ValueError on an unparsable date and IntegrityError on a key clash. */
  lemma InsertFileRejects(t: Tables, id: FileId, data: NewFile, now: DateTime)
    requires ValidDateTime(now)
    ensures ParseLocal(data.unlockDate).None? ==> InsertFile(t, id, data, now) == Err(DateFormatError)
    ensures ParseLocal(data.unlockDate).Some? && KeyClash(t, id, data.allowedUsers) ==>
      InsertFile(t, id, data, now) == Err(IntegrityError)
  {
  }

  /** With a parsable date and no key clash, add_file commits the row and the tracking rows. */
  lemma InsertFileCommits(t: Tables, id: FileId, data: NewFile, now: DateTime, at: DateTime)
    requires ValidDateTime(now) && ParseLocal(data.unlockDate) == Some(at)
    requires id !in t.files && Distinct(data.allowedUsers)
    requires forall j :: 0 <= j < |data.allowedUsers| ==> (id, data.allowedUsers[j]) !in t.tracking
    ensures InsertFile(t, id, data, now) ==
      Ok(Tables(t.files[id := NewRow(data, at, now)], t.tracking + TrackingRowsFor(id, data.allowedUsers)))
  {
    assert !KeyClash(t, id, data.allowedUsers);
  }

  /** An empty store is consistent. */
  lemma EmptyConsistent()
    ensures Consistent(Tables(map[], map[]))
  {
  }

  /** The tables `t'` after a committed `add_file` of `data` under `id` on `t` at time `now`: exactly
      the new capsule and one undownloaded tracking row per listed user are added, the row holding
      the submitted name, size, MIME type, uploader and list, not yet unlocked, uploaded at `now`,
      with the unlock date in the stored form as both `unlock_date` and `expiry_date`; nothing
      already there changes. */
  ghost predicate Inserted(t: Tables, t': Tables, id: FileId, data: NewFile, now: DateTime) {
    && t'.files.Keys == t.files.Keys + {id}
    && (forall other :: other in t.files ==> t'.files[other] == t.files[other])
    && var row := t'.files[id];
    && row.filename == data.filename && row.fileSize == data.fileSize && row.mimeType == data.mimeType
    && ValidDateTime(now) && row.uploadDate == FormatStored(now)
    && row.uploaderId == data.uploaderId && row.allowed == JsonList(data.allowedUsers) && !row.unlocked
    && row.expiryDate == row.unlockDate
    && ParseStored(row.unlockDate) == ParseLocal(data.unlockDate)
    && (forall k :: k in t'.tracking <==> k in t.tracking || (k.0 == id && k.1 in data.allowedUsers))
    && (forall k :: k in t.tracking ==> t'.tracking[k] == t.tracking[k])
    && (forall u :: u in data.allowedUsers ==> t'.tracking[(id, u)] == TrackRow(false, None))
  }

  /** add_file rejects an unparsable unlock date and any key clash, and otherwise commits exactly
      the insert described by Inserted. */
  lemma InsertFileOutcome(t: Tables, id: FileId, data: NewFile, now: DateTime)
    requires ValidDateTime(now)
    ensures ParseLocal(data.unlockDate).None? ==> InsertFile(t, id, data, now) == Err(DateFormatError)
    ensures InsertFile(t, id, data, now).Ok? <==>
      ParseLocal(data.unlockDate).Some? && id !in t.files && Distinct(data.allowedUsers)
      && forall u :: u in data.allowedUsers ==> (id, u) !in t.tracking
    ensures InsertFile(t, id, data, now).Ok? ==> Inserted(t, InsertFile(t, id, data, now).value, id, data, now)
  {
    match ParseLocal(data.unlockDate)
    case None =>
    case Some(at) =>
      if !KeyClash(t, id, data.allowedUsers) {
        var row := NewRow(data, at, now);
        var rows := TrackingRowsFor(id, data.allowedUsers);
        assert InsertFile(t, id, data, now) == Ok(Tables(t.files[id := row], t.tracking + rows));
        ParseFormatStored(at);
        assert forall k :: k in rows <==> k.0 == id && k.1 in data.allowedUsers;
        InsertedRows(t, id, data, now, row, rows);
      }
  }

  /** Adding a row and the tracking rows of its listed users is an Inserted step. */
  lemma InsertedRows(t: Tables, id: FileId, data: NewFile, now: DateTime, row: FileRow,
                     rows: map<(FileId, UserId), TrackRow>)
    requires id !in t.files
    requires row.filename == data.filename && row.fileSize == data.fileSize && row.mimeType == data.mimeType
    requires ValidDateTime(now) && row.uploadDate == FormatStored(now)
    requires row.uploaderId == data.uploaderId && row.allowed == JsonList(data.allowedUsers) && !row.unlocked
    requires row.expiryDate == row.unlockDate && ParseStored(row.unlockDate) == ParseLocal(data.unlockDate)
    requires forall k :: k in rows <==> k.0 == id && k.1 in data.allowedUsers
    requires forall k :: k in rows ==> rows[k] == TrackRow(false, None)
    requires forall u :: u in data.allowedUsers ==> (id, u) !in t.tracking
    ensures Inserted(t, Tables(t.files[id := row], t.tracking + rows), id, data, now)
  {
  }


  /** Adding a capsule whose uploader is a recipient, under an id no tracking row uses yet, keeps
      the store consistent. */
  lemma InsertFileConsistent(t: Tables, id: FileId, data: NewFile, now: DateTime)
    requires Consistent(t) && ValidDateTime(now)
    requires data.uploaderId in data.allowedUsers
    requires forall k :: k in t.tracking ==> k.0 != id
    requires InsertFile(t, id, data, now).Ok?
    ensures Consistent(InsertFile(t, id, data, now).value)
  {
    var at := ParseLocal(data.unlockDate).value;
    var row := NewRow(data, at, now);
    assert WellFormedRow(row) by {
      FormatParseStored(row.unlockDate);
      ParseFormatStored(now);
    }
    AddRowsConsistent(t, id, row, data.allowedUsers);
  }

  /** A well-formed capsule row added together with one fresh tracking row per recipient keeps the
      store consistent. */
  lemma AddRowsConsistent(t: Tables, id: FileId, row: FileRow, users: seq<UserId>)
    requires Consistent(t) && WellFormedRow(row) && row.allowed == JsonList(users)
    requires forall k :: k in t.tracking ==> k.0 != id
    ensures Consistent(Tables(t.files[id := row], t.tracking + TrackingRowsFor(id, users)))
  {
    var rows := TrackingRowsFor(id, users);
    var t' := Tables(t.files[id := row], t.tracking + rows);
    forall x | x in t'.files ensures WellFormedRow(t'.files[x]) {
    }
    forall x, u | x in t'.files && ListsUser(t'.files[x].allowed, u) ensures (x, u) in t'.tracking {
      if x == id {
        assert (id, u) in rows;
      }
    }
    forall k | k in t'.tracking && k.0 in t'.files ensures ListsUser(t'.files[k.0].allowed, k.1) {
      if k !in rows {
        assert k in t.tracking;
      }
    }
    forall k | k in t'.tracking ensures t'.tracking[k].downloaded <==> t'.tracking[k].downloadDate.Some? {
      if k !in rows {
        assert k in t.tracking;
      }
    }
  }


  /** The rows of f still to be downloaded lose u, and nothing else; the call reports true exactly
      when u was the last of them. */
  lemma MarkDownloadedPending(t: Tables, f: FileId, u: UserId, when: string)
    ensures var (t', last) := MarkDownloaded(t, f, u, when);
      && Pending(t', f) == Pending(t, f) - {u}
      && (last <==> u in Pending(t, f) && Pending(t, f) == {u})
      && t'.files == t.files
      && t'.tracking.Keys == t.tracking.Keys
      && (forall k :: k in t.tracking && k != (f, u) ==> t'.tracking[k] == t.tracking[k])
      && ((f, u) !in t.tracking || t.tracking[(f, u)].downloaded ==> t' == t && !last)
      && ((f, u) in t.tracking && !t.tracking[(f, u)].downloaded ==> t'.tracking[(f, u)] == TrackRow(true, Some(when)))
  {
    var (t', last) := MarkDownloaded(t, f, u, when);
    var k := (f, u);
    if k !in t.tracking || t.tracking[k].downloaded {
      assert forall k': (FileId, UserId) :: k'.0 == f && k'.1 == u ==> k' == k;
    } else {
      assert u in Pending(t, f);
      forall v ensures v in Pending(t', f) <==> v in Pending(t, f) - {u} {
        if v in Pending(t', f) {
          var k' :| k' in t'.tracking && k'.0 == f && !t'.tracking[k'].downloaded && k'.1 == v;
          assert k' != k;
          assert k' in t.tracking && !t.tracking[k'].downloaded;
        }
        if v in Pending(t, f) - {u} {
          var k' :| k' in t.tracking && k'.0 == f && !t.tracking[k'].downloaded && k'.1 == v;
          assert k' in t'.tracking && !t'.tracking[k'].downloaded;
        }
      }
    }
  }

  /** A second call for the same capsule and recipient reports false and changes nothing. */
  lemma MarkDownloadedIdempotent(t: Tables, f: FileId, u: UserId, when: string, later: string)
    ensures var t' := MarkDownloaded(t, f, u, when).0;
      MarkDownloaded(t', f, u, later) == (t', false)
  {
  }

  /** The verdicts of successive downloads of capsule f by the listed users, in that order. */
  function DownloadRun(t: Tables, f: FileId, users: seq<UserId>, when: string): seq<bool>
    decreases |users|
  {
    if users == [] then []
    else
      var (t', last) := MarkDownloaded(t, f, users[0], when);
      [last] + DownloadRun(t', f, users[1..], when)
  }

  function CountTrue(bs: seq<bool>): nat {
    if bs == [] then 0 else (if bs[0] then 1 else 0) + CountTrue(bs[1..])
  }

  /** However the downloads of one capsule are ordered, repeated, or mixed with callers who have no
      tracking row, at most one call reports "last recipient", and one does exactly when every
      recipient still pending at the start appears among the callers. */
  lemma {:induction false} ExactlyOneLastDownload(t: Tables, f: FileId, users: seq<UserId>, when: string)
    ensures CountTrue(DownloadRun(t, f, users, when)) ==
      if Pending(t, f) != {} && forall v :: v in Pending(t, f) ==> v in users then 1 else 0
    decreases |users|
  {
    if users != [] {
      var u := users[0];
      var (t', last) := MarkDownloaded(t, f, u, when);
      MarkDownloadedPending(t, f, u, when);
      ExactlyOneLastDownload(t', f, users[1..], when);
      assert forall v :: v in users <==> v == u || v in users[1..];
      if last {
        assert Pending(t', f) == {};
      }
    }
  }

  /** The two-recipient case: after A downloads the capsule is kept, after B it is to be deleted. */
  lemma TwoRecipients(t: Tables, f: FileId, a: UserId, b: UserId, when: string)
    requires a != b && Pending(t, f) == {a, b}
    ensures var (t1, first) := MarkDownloaded(t, f, a, when);
      !first && MarkDownloaded(t1, f, b, when).1
  {
    MarkDownloadedPending(t, f, a, when);
    var t1 := MarkDownloaded(t, f, a, when).0;
    assert Pending(t1, f) == {b};
    MarkDownloadedPending(t1, f, b, when);
  }

  /** An undownloaded row of a user who never downloads keeps the capsule pending. This is what a
      capsule stored under a reused id inherits from the rows its predecessor left behind: no
      download of the id is ever reported as the last one. */
  lemma InheritedRowBlocksLast(t: Tables, f: FileId, x: UserId, users: seq<UserId>, when: string)
    requires (f, x) in t.tracking && !t.tracking[(f, x)].downloaded
    requires x !in users
    ensures CountTrue(DownloadRun(t, f, users, when)) == 0
  {
    assert x in Pending(t, f);
    ExactlyOneLastDownload(t, f, users, when);
  }

  /** Marking a download keeps the store consistent. */
  lemma MarkDownloadedConsistent(t: Tables, f: FileId, u: UserId, when: string)
    requires Consistent(t)
    ensures Consistent(MarkDownloaded(t, f, u, when).0)
  {
    MarkDownloadedPending(t, f, u, when);
  }

  /** delete_file keeps the store consistent but leaves every tracking row of the capsule behind. */
  lemma RemoveFileRowLeavesTracking(t: Tables, id: FileId)
    requires Consistent(t)
    ensures Consistent(RemoveFileRow(t, id).0)
    ensures id !in RemoveFileRow(t, id).0.files
    ensures id in t.files ==> forall u :: u in t.files[id].allowed.users ==> (id, u) in RemoveFileRow(t, id).0.tracking
  {
  }

  /** Dropping capsules removes them from both tables and keeps the store consistent. */
  lemma DropCapsulesConsistent(t: Tables, ids: set<FileId>)
    requires Consistent(t)
    ensures var t' := DropCapsules(t, ids);
      && Consistent(t')
      && t'.files.Keys == t.files.Keys - ids
      && (forall k :: k in t'.tracking <==> k in t.tracking && k.0 !in ids)
  {
  }

  /** Dropping one capsule after others is dropping them all at once. */
  lemma DropCapsulesStep(t: Tables, ids: set<FileId>, id: FileId)
    ensures DropCapsules(DropCapsules(t, ids), {id}) == DropCapsules(t, ids + {id})
  {
    var a := DropCapsules(DropCapsules(t, ids), {id});
    var b := DropCapsules(t, ids + {id});
    assert a.files == b.files;
    assert a.tracking.Keys == b.tracking.Keys;
  }

  /** Every capsule the store selects as expired has reached its unlock time: its unlock date is
      chronologically before `now`. Expiry therefore never removes a capsule that is still locked. */
  lemma ExpiredMeansUnlocked(t: Tables, now: DateTime, id: FileId)
    requires Consistent(t) && ValidDateTime(now)
    requires id in ExpiredIds(t, FormatStored(now))
    ensures Before(ParseStored(t.files[id].unlockDate).value, now)
  {
    var row := t.files[id];
    var u := ParseStored(row.unlockDate).value;
    FormatParseStored(row.unlockDate);
    StoredOrderIsChronological(u, now);
  }

  // ---------------------------------------------------------------------------------------
  // Ordering used by `ORDER BY upload_date DESC`

  /** Ids in `files`, newest upload first (ties in any order). */
  predicate NewestFirst(ids: seq<FileId>, files: map<FileId, FileRow>) {
    && (forall i :: 0 <= i < |ids| ==> ids[i] in files)
    && (forall i, j :: 0 <= i < j < |ids| ==> !TextLess(files[ids[i]].uploadDate, files[ids[j]].uploadDate))
  }

  /** Inserts id in front of the first entry uploaded before it. */
  function InsertNewestFirst(ids: seq<FileId>, id: FileId, files: map<FileId, FileRow>): (r: seq<FileId>)
    requires id in files && forall i :: 0 <= i < |ids| ==> ids[i] in files
    ensures forall x :: x in r <==> x in ids || x == id
    ensures |r| == |ids| + 1
  {
    if ids == [] then [id]
    else if TextLess(files[ids[0]].uploadDate, files[id].uploadDate) then [id] + ids
    else [ids[0]] + InsertNewestFirst(ids[1..], id, files)
  }

  /** An id whose upload is not older than any listed one may go in front. */
  lemma ConsNewestFirst(x: FileId, rest: seq<FileId>, files: map<FileId, FileRow>)
    requires x in files && NewestFirst(rest, files) && Distinct(rest) && x !in rest
    requires forall j :: 0 <= j < |rest| ==> !TextLess(files[x].uploadDate, files[rest[j]].uploadDate)
    ensures NewestFirst([x] + rest, files) && Distinct([x] + rest)
  {
    var r := [x] + rest;
    assert forall j :: 1 <= j < |r| ==> r[j] == rest[j - 1];
  }

  lemma {:induction false} InsertNewestFirstSorted(ids: seq<FileId>, id: FileId, files: map<FileId, FileRow>)
    requires id in files && NewestFirst(ids, files)
    requires Distinct(ids) && id !in ids
    ensures NewestFirst(InsertNewestFirst(ids, id, files), files)
    ensures Distinct(InsertNewestFirst(ids, id, files))
  {
    if ids != [] {
      var d := files[id].uploadDate;
      var d0 := files[ids[0]].uploadDate;
      if TextLess(d0, d) {
        forall j | 0 <= j < |ids| ensures !TextLess(d, files[ids[j]].uploadDate) {
          if TextLess(d, files[ids[j]].uploadDate) {
            TextLessTransitive(d0, d, files[ids[j]].uploadDate);
            if j == 0 { TextLessIrreflexive(d0); }
          }
        }
        ConsNewestFirst(id, ids, files);
      } else {
        var tail := ids[1..];
        assert NewestFirst(tail, files) && Distinct(tail) && id !in tail;
        InsertNewestFirstSorted(tail, id, files);
        var rest := InsertNewestFirst(tail, id, files);
        forall j | 0 <= j < |rest| ensures !TextLess(d0, files[rest[j]].uploadDate) {
          if rest[j] != id {
            assert rest[j] in rest;
            var k :| 0 <= k < |tail| && tail[k] == rest[j];
            assert ids[k + 1] == rest[j];
          }
        }
        assert ids[0] !in tail;
        ConsNewestFirst(ids[0], rest, files);
      }
    }
  }


  /** The summaries of the listed ids whose capsules list the user, in list order: every entry
      is the summary of a listed capsule naming the user, and every such capsule has an entry. */
  function ListedFor(ids: seq<FileId>, files: map<FileId, FileRow>, user: UserId): (r: seq<Summary>)
    requires forall i :: 0 <= i < |ids| ==> ids[i] in files
    ensures forall i :: 0 <= i < |r| ==> r[i].id in ids
    ensures forall i :: 0 <= i < |r| ==> r[i] == Summarize(r[i].id, files[r[i].id]) && ListsUser(files[r[i].id].allowed, user)
    ensures forall id :: id in ids && ListsUser(files[id].allowed, user) ==> exists i :: 0 <= i < |r| && r[i].id == id
  {
    if ids == [] then []
    else
      var init := ids[..|ids| - 1];
      var id := ids[|ids| - 1];
      assert forall x :: x in ids <==> x in init || x == id;
      var p := ListedFor(init, files, user);
      if ListsUser(files[id].allowed, user) then
        var r := p + [Summarize(id, files[id])];
        assert r[|r| - 1].id == id;
        assert forall i :: 0 <= i < |p| ==> r[i] == p[i];
        r
      else p
  }

  /** A newest-first scan lists each capsule once and keeps the newest-first order. */
  lemma {:induction false} ListedForOrdered(ids: seq<FileId>, files: map<FileId, FileRow>, user: UserId)
    requires NewestFirst(ids, files) && Distinct(ids)
    ensures forall i, j :: 0 <= i < j < |ListedFor(ids, files, user)| ==>
      ListedFor(ids, files, user)[i].id != ListedFor(ids, files, user)[j].id
      && !TextLess(ListedFor(ids, files, user)[i].uploadDate, ListedFor(ids, files, user)[j].uploadDate)
  {
    if ids != [] {
      var init := ids[..|ids| - 1];
      var id := ids[|ids| - 1];
      assert NewestFirst(init, files) && Distinct(init);
      ListedForOrdered(init, files, user);
      var p := ListedFor(init, files, user);
      var r := ListedFor(ids, files, user);
      forall i | 0 <= i < |p| ensures p[i].id != id && !TextLess(p[i].uploadDate, files[id].uploadDate) {
        assert p[i].id in init;
        var k :| 0 <= k < |init| && init[k] == p[i].id;
        assert ids[k] == p[i].id;
      }
      if ListsUser(files[id].allowed, user) {
        assert r == p + [Summarize(id, files[id])];
      } else {
        assert r == p;
      }
    }
  }

  // ---------------------------------------------------------------------------------------
  // The store object

  /** `Database`: the two tables and the operations that query and change them. */
  class Database {
    var files: map<FileId, FileRow>
    var tracking: map<(FileId, UserId), TrackRow>

    function State(): Tables
      reads this
    {
      Tables(files, tracking)
    }

    /** `init_db` on a fresh database file: both tables exist and are empty. */
    constructor ()
      ensures files == map[] && tracking == map[]
    {
      files := map[];
      tracking := map[];
    }

    /** `SELECT ... FROM files ORDER BY upload_date DESC`: every id once, newest upload first. */
    method SelectNewestFirst() returns (ids: seq<FileId>)
      ensures Distinct(ids)
      ensures forall id :: id in ids <==> id in files
      ensures NewestFirst(ids, files)
    {
      ids := [];
      var rest := files.Keys;
      while rest != {}
        invariant rest <= files.Keys
        invariant Distinct(ids) && NewestFirst(ids, files)
        invariant forall id :: id in ids <==> id in files && id !in rest
        decreases rest
      {
        var id :| id in rest;
        InsertNewestFirstSorted(ids, id, files);
        ids := InsertNewestFirst(ids, id, files);
        rest := rest - {id};
      }
    }

    /** `get_user_files`: the summaries of exactly the capsules whose `allowed_users` decodes to a
        list containing `user`, each once, newest upload first. */
    method GetUserFiles(user: UserId) returns (r: seq<Summary>)
      ensures forall i :: 0 <= i < |r| ==>
                (r[i].id in files && ListsUser(files[r[i].id].allowed, user) && r[i] == Summarize(r[i].id, files[r[i].id]))
      ensures forall id :: id in files && ListsUser(files[id].allowed, user) ==> exists i :: 0 <= i < |r| && r[i].id == id
      ensures forall i, j :: 0 <= i < j < |r| ==> r[i].id != r[j].id && !TextLess(r[i].uploadDate, r[j].uploadDate)
    {
      var ids := SelectNewestFirst();
      r := [];
      var i := 0;
      while i < |ids|
        invariant 0 <= i <= |ids|
        invariant r == ListedFor(ids[..i], files, user)
      {
        var id := ids[i];
        assert ids[..i + 1][..i] == ids[..i];
        if ListsUser(files[id].allowed, user) {
          r := r + [Summarize(id, files[id])];
        }
        i := i + 1;
      }
      assert ids[..|ids|] == ids;
      ListedForOrdered(ids, files, user);
    }

    /** The tracking rows `add_file` inserts one user at a time, staged until the commit: fails as
        soon as a user is listed twice or already has a row for this capsule. */
    method StageTracking(id: FileId, users: seq<UserId>) returns (ok: bool, staged: map<(FileId, UserId), TrackRow>)
      ensures ok <==> Distinct(users) && forall u :: u in users ==> (id, u) !in tracking
      ensures ok ==> staged == tracking + TrackingRowsFor(id, users)
    {
      staged := tracking;
      var i := 0;
      while i < |users|
        invariant 0 <= i <= |users|
        invariant Distinct(users[..i])
        invariant forall j :: 0 <= j < i ==> (id, users[j]) !in tracking
        invariant staged == tracking + TrackingRowsFor(id, users[..i])
      {
        var k := (id, users[i]);
        if k in staged {
          KeyClashFound(State(), id, users, i);
          return false, staged;
        }
        StageStep(tracking, id, users, i);
        staged := staged[k := TrackRow(false, None)];
        i := i + 1;
      }
      assert users[..i] == users;
      ok := true;
    }

    /** `get_file`. */
    method GetFile(id: FileId) returns (r: Lookup)
      ensures r == LookupFile(State(), id)
    {
      if id !in files {
        return Absent;
      }
      var row := files[id];
      var users: seq<UserId>;
      match row.allowed {
        case BadJson => return Unreadable;
        case EmptyText => users := [];
        case JsonList(us) => users := us;
      }
      r := Found(FileInfo(id, row.filename, row.uploadDate, row.unlockDate, row.unlocked,
                          users, row.fileSize, row.mimeType, row.uploaderId));
    }

    /** `add_file`: inserts the capsule and its tracking rows in one transaction, or nothing. */
    method AddFile(id: FileId, data: NewFile, now: DateTime) returns (r: Result<FileId, DbError>)
      requires ValidDateTime(now)
      modifies this
      ensures InsertFile(old(State()), id, data, now).Ok? ==>
        r == Ok(id) && State() == InsertFile(old(State()), id, data, now).value
      ensures InsertFile(old(State()), id, data, now).Err? ==>
        r == Err(InsertFile(old(State()), id, data, now).error) && State() == old(State())
    {
      InsertFileRejects(State(), id, data, now);
      var parsed := ParseLocal(data.unlockDate);
      if parsed.None? {
        return Err(DateFormatError);
      }
      var at := parsed.value;
      if id in files {
        return Err(IntegrityError);
      }
      var ok, staged := StageTracking(id, data.allowedUsers);
      if !ok {
        return Err(IntegrityError);
      }
      InsertFileCommits(State(), id, data, now, at);
      files := files[id := NewRow(data, at, now)];
      tracking := staged;
      r := Ok(id);
    }

    /** `delete_file`. */
    method DeleteFile(id: FileId) returns (existed: bool)
      modifies this
      ensures (State(), existed) == RemoveFileRow(old(State()), id)
    {
      existed := id in files;
      files := files - {id};
    }

    /** `check_and_update_download`. */
    method CheckAndUpdateDownload(f: FileId, u: UserId, when: string) returns (shouldDelete: bool)
      modifies this
      ensures (State(), shouldDelete) == MarkDownloaded(old(State()), f, u, when)
    {
      var k := (f, u);
      if k !in tracking || tracking[k].downloaded {
        return false;
      }
      tracking := tracking[k := TrackRow(true, Some(when))];
      var remaining := set k' | k' in tracking && k'.0 == f && !tracking[k'].downloaded;
      shouldDelete := |remaining| == 0;
      assert remaining == {} <==> Pending(State(), f) == {} by {
        if remaining != {} {
          var k' :| k' in remaining;
          assert k'.1 in Pending(State(), f);
        }
        if Pending(State(), f) != {} {
          var v :| v in Pending(State(), f);
          var k' :| k' in tracking && k'.0 == f && !tracking[k'].downloaded && k'.1 == v;
          assert k' in remaining;
        }
      }
    }

    /** `check_expired_files`: the ids of every capsule whose expiry or unlock date sorts before
        `now`, each once (in no particular order). */
    method CheckExpiredFiles(now: string) returns (ids: seq<FileId>)
      ensures Distinct(ids)
      ensures forall id :: id in ids <==> id in ExpiredIds(State(), now)
    {
      ids := [];
      var rest := files.Keys;
      while rest != {}
        invariant rest <= files.Keys
        invariant Distinct(ids)
        invariant forall id :: id in ids <==> id in ExpiredIds(State(), now) && id !in rest
        decreases rest
      {
        var id :| id in rest;
        var row := files[id];
        if TextLess(row.expiryDate, now) || TextLess(row.unlockDate, now) {
          ids := ids + [id];
        }
        rest := rest - {id};
      }
    }

    /** `delete_expired_files`: for each listed id, deletes its `files` row and its tracking rows. */
    method DeleteExpiredFiles(ids: seq<FileId>)
      modifies this
      ensures State() == DropCapsules(old(State()), set i | 0 <= i < |ids| :: ids[i])
    {
      var i := 0;
      while i < |ids|
        invariant 0 <= i <= |ids|
        invariant State() == DropCapsules(old(State()), set j | 0 <= j < i :: ids[j])
      {
        var id := ids[i];
        DropCapsulesStep(old(State()), set j | 0 <= j < i :: ids[j], id);
        assert (set j | 0 <= j < i + 1 :: ids[j]) == (set j | 0 <= j < i :: ids[j]) + {id};
        files := files - {id};
        tracking := map k | k in tracking && k.0 != id :: tracking[k];
        i := i + 1;
      }
    }
  }
}
